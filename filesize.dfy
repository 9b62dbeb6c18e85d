/**
 * `formatFileSize(bytes)` of app.js: whole bytes below 1 KiB, otherwise the size in KiB
 * (below 1 MiB) or MiB with one decimal, as `toFixed(1)` writes it.
 *
 * Dividing a whole number below 2^53 by 1024 or 1048576 is exact in binary floating point,
 * so `toFixed(1)` sees the exact quotient and picks the nearest tenth, the larger one on a tie.
 */
module FileSize {
  import opened JsString

  const KiB: nat := 1024
  const MiB: nat := 1048576

  /** The nearest number of tenths to `bytes / unit`, halves rounded up. */
  function Tenths(bytes: nat, unit: nat): (t: nat)
    requires unit > 0
    ensures 2 * unit * t <= 20 * bytes + unit < 2 * unit * (t + 1)
  {
    (20 * bytes + unit) / (2 * unit)
  }

  /** A number of tenths written with exactly one decimal, as `toFixed(1)` does. */
  function OneDecimal(t: nat): (s: string)
    ensures |s| >= 3 && s[|s| - 2] == '.'
  {
    NatToString(t / 10) + "." + [DigitChar(t % 10)]
  }

  function FormatFileSize(bytes: nat): (r: string)
    ensures EndsWith(r, " B") || EndsWith(r, " KB") || EndsWith(r, " MB")
  {
    if bytes < KiB then NatToString(bytes) + " B"
    else if bytes < MiB then OneDecimal(Tenths(bytes, KiB)) + " KB"
    else OneDecimal(Tenths(bytes, MiB)) + " MB"
  }

  predicate EndsWith(s: string, suffix: string) {
    |suffix| <= |s| && s[|s| - |suffix|..] == suffix
  }

  /** The unit is "B" exactly below 1024 bytes, "KB" exactly from 1024 below 1048576, "MB" from there on. */
  lemma UnitSelection(bytes: nat)
    ensures EndsWith(FormatFileSize(bytes), " B") <==> bytes < KiB
    ensures EndsWith(FormatFileSize(bytes), " KB") <==> KiB <= bytes < MiB
    ensures EndsWith(FormatFileSize(bytes), " MB") <==> MiB <= bytes
  {
    var r := FormatFileSize(bytes);
    if bytes < KiB {
      var d := NatToString(bytes);
      assert r[|r| - 2..] == " B";
      assert r[|r| - 2] == ' ';
      assert IsDigit(r[|r| - 3]) by { assert r[|r| - 3] == d[|d| - 1]; }
    } else {
      var unit := if bytes < MiB then KiB else MiB;
      var o := OneDecimal(Tenths(bytes, unit));
      var suffix := if bytes < MiB then " KB" else " MB";
      assert r == o + suffix;
      assert r[|r| - 3..] == suffix;
      assert r[|r| - 2] == suffix[1];
    }
  }

  /** Below 1024 the text is the decimal digits of the byte count, then " B". */
  lemma WholeBytes(bytes: nat)
    requires bytes < KiB
    ensures exists digits :: FormatFileSize(bytes) == digits + " B"
                             && (forall k :: 0 <= k < |digits| ==> IsDigit(digits[k]))
                             && DigitsValue(digits) == bytes
  {
    NatToStringRoundTrip(bytes);
    assert FormatFileSize(bytes) == NatToString(bytes) + " B";
  }

  /** Reading back the whole part and the one decimal gives the number of tenths. */
  lemma OneDecimalReadBack(t: nat)
    ensures var s := OneDecimal(t);
      var whole := s[..|s| - 2];
      (forall k :: 0 <= k < |whole| ==> IsDigit(whole[k]))
      && IsDigit(s[|s| - 1])
      && 10 * DigitsValue(whole) + (s[|s| - 1] as int - '0' as int) == t
  {
    var s := OneDecimal(t);
    assert s[..|s| - 2] == NatToString(t / 10);
    NatToStringRoundTrip(t / 10);
  }

  /**
   * From 1024 bytes on, the text is the size in the chosen unit rounded to the nearest tenth
   * (halves up), with one decimal, then the unit.
   */
  lemma ScaledBytes(bytes: nat)
    requires KiB <= bytes
    ensures var unit := if bytes < MiB then KiB else MiB;
      exists t: nat :: FormatFileSize(bytes) == OneDecimal(t) + (if bytes < MiB then " KB" else " MB")
                       && 2 * unit * t <= 20 * bytes + unit < 2 * unit * (t + 1)
  {
    var unit := if bytes < MiB then KiB else MiB;
    var t := Tenths(bytes, unit);
    assert FormatFileSize(bytes) == OneDecimal(t) + (if bytes < MiB then " KB" else " MB");
  }

  /** 512 bytes are shown as "512 B". */
  lemma SmallFileExample()
    ensures FormatFileSize(512) == "512 B"
  {
    assert NatToString(512) == "512" by {
      assert NatToString(5) == "5";
      assert NatToString(51) == "51";
    }
  }

  /** 1536 bytes are shown as "1.5 KB". */
  lemma KilobyteExample()
    ensures FormatFileSize(1536) == "1.5 KB"
  {
    assert Tenths(1536, KiB) == 15;
    assert NatToString(1) == "1";
    assert OneDecimal(15) == "1.5";
  }

  /** One byte short of 1 MiB rounds up to "1024.0 KB": the unit is chosen before rounding. */
  lemma JustBelowMegabyteExample()
    ensures FormatFileSize(1048575) == "1024.0 KB"
  {
    assert Tenths(1048575, KiB) == 10240;
    assert NatToString(1024) == "1024" by {
      assert NatToString(1) == "1";
      assert NatToString(10) == "10";
      assert NatToString(102) == "102";
    }
    assert OneDecimal(10240) == "1024.0";
  }

  /** 2 MiB are shown as "2.0 MB". */
  lemma MegabyteExample()
    ensures FormatFileSize(2097152) == "2.0 MB"
  {
    assert Tenths(2097152, MiB) == 20;
    assert NatToString(2) == "2";
    assert OneDecimal(20) == "2.0";
  }
}
