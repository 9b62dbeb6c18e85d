/**
 * The query router of `handleQuery` in app.js: the trimmed, lower-cased question picks a
 * keyword group (the first group one of whose words it contains), and the answer is the
 * first sample query whose own lower-cased question contains that group's key word;
 * when no group applies, or no sample has the key word, the first sample is used.
 */
module QueryRouter {
  import opened Options
  import opened JsString

  /** A canned query; only its question takes part in routing. */
  datatype SampleQuery = SampleQuery(question: string, highlightNodes: seq<string>, highlightEdges: seq<string>)

  /** A keyword group: the words looked for in the user's question, and the key word looked for in a sample. */
  datatype Group = Group(words: seq<string>, key: string)

  /** The four groups, in the order `handleQuery` tries them. */
  const Groups: seq<Group> := [
    Group(["heart", "cardio", "chennai"], "heart"),
    Group(["epilepsy", "neuro", "bangalore"], "epilepsy"),
    Group(["cancer", "oncol", "mumbai", "leukemia"], "cancer"),
    Group(["arthritis", "ortho", "delhi", "joint"], "arthritis")
  ]

  predicate ContainsAny(q: string, words: seq<string>) {
    exists w :: w in words && Contains(q, w)
  }

  /** The key word of the first group of `groups` that `q` mentions. */
  function KeyFor(q: string, groups: seq<Group>): (r: Option<string>)
    ensures r.Some? ==> exists i :: 0 <= i < |groups| && ContainsAny(q, groups[i].words) && r.value == groups[i].key
  {
    if groups == [] then None
    else if ContainsAny(q, groups[0].words) then Some(groups[0].key)
    else KeyFor(q, groups[1..])
  }

  /**
   * A key word is found exactly when some group is mentioned, and it is the key of the
   * first group mentioned.
   */
  lemma {:induction false} KeyForFirstGroup(q: string, groups: seq<Group>)
    ensures KeyFor(q, groups).Some? <==> exists i :: 0 <= i < |groups| && ContainsAny(q, groups[i].words)
    ensures forall i :: 0 <= i < |groups| && ContainsAny(q, groups[i].words)
                        && (forall j :: 0 <= j < i ==> !ContainsAny(q, groups[j].words))
                        ==> KeyFor(q, groups) == Some(groups[i].key)
  {
    if groups != [] && !ContainsAny(q, groups[0].words) {
      KeyForFirstGroup(q, groups[1..]);
      assert forall i :: 0 < i < |groups| ==> groups[i] == groups[1..][i - 1];
      if exists i :: 0 <= i < |groups| && ContainsAny(q, groups[i].words) {
        var i :| 0 <= i < |groups| && ContainsAny(q, groups[i].words);
        assert ContainsAny(q, groups[1..][i - 1].words);
      }
      forall i | 0 <= i < |groups| && ContainsAny(q, groups[i].words)
                 && (forall j :: 0 <= j < i ==> !ContainsAny(q, groups[j].words))
        ensures KeyFor(q, groups) == Some(groups[i].key)
      {
        assert i > 0;
        assert forall j :: 0 <= j < i - 1 ==> !ContainsAny(q, groups[1..][j].words) by {
          forall j | 0 <= j < i - 1 ensures !ContainsAny(q, groups[1..][j].words) {
            assert groups[1..][j] == groups[j + 1];
          }
        }
        assert ContainsAny(q, groups[1..][i - 1].words);
      }
    }
  }

  /** `SAMPLE_QUERIES.find(...)`: the first sample from `start` whose lower-cased question contains `key`. */
  function FirstWith(samples: seq<SampleQuery>, key: string, start: nat): (r: Option<nat>)
    requires start <= |samples|
    decreases |samples| - start
    ensures r.Some? ==> start <= r.value < |samples| && Contains(ToLower(samples[r.value].question), key)
    ensures forall i :: start <= i < |samples| && (r.None? || i < r.value)
                        ==> !Contains(ToLower(samples[i].question), key)
  {
    if start == |samples| then None
    else if Contains(ToLower(samples[start].question), key) then Some(start)
    else FirstWith(samples, key, start + 1)
  }

  /**
   * The index of the sample `handleQuery` settles on for `question` (already trimmed and
   * not empty): `find(...) || SAMPLE_QUERIES[0]`.
   */
  function Route(question: string, samples: seq<SampleQuery>): (r: nat)
    requires |samples| > 0
    ensures r < |samples|
  {
    match KeyFor(ToLower(question), Groups)
    case None => 0
    case Some(key) =>
      match FirstWith(samples, key, 0)
      case None => 0
      case Some(i) => i
  }

  /**
   * Routing picks the first sample holding the key word of the first group the question
   * mentions; it falls back to the first sample when the question mentions no group or
   * no sample holds the key word.
   */
  lemma RouteChoice(question: string, samples: seq<SampleQuery>)
    requires |samples| > 0
    ensures var q := ToLower(question);
      (forall g :: 0 <= g < |Groups| ==> !ContainsAny(q, Groups[g].words)) ==> Route(question, samples) == 0
    ensures var q := ToLower(question);
      forall g :: 0 <= g < |Groups| && ContainsAny(q, Groups[g].words)
                  && (forall h :: 0 <= h < g ==> !ContainsAny(q, Groups[h].words))
        ==> var i := Route(question, samples);
            (Contains(ToLower(samples[i].question), Groups[g].key)
             && forall j :: 0 <= j < i ==> !Contains(ToLower(samples[j].question), Groups[g].key))
            || (i == 0 && forall j :: 0 <= j < |samples| ==> !Contains(ToLower(samples[j].question), Groups[g].key))
  {
    KeyForFirstGroup(ToLower(question), Groups);
  }

  /** Upper and lower case in the question make no difference. */
  lemma RouteIgnoresCase(question: string, samples: seq<SampleQuery>)
    requires |samples| > 0
    ensures Route(ToLower(question), samples) == Route(question, samples)
  {
    ToLowerIdempotent(question);
  }
}
