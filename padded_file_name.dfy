/**
 * `PaddedFileName.format_filename` of nodes/Loop_Counter.py, and `File_name.format_filename`
 * of the root LoopCounter.py (the same expression, with the multiplier called `length`).
 */
module PaddedFileName {
  import opened Common
  import opened Text

  /** `f"{prefix}_{n:05d}_.png"` with `n = loop_count * multiplier`. */
  function FormatFilename(loopCount: int, multiplier: int, prefix: string): string
  {
    prefix + "_" + Format05d(loopCount * multiplier) + "_.png"
  }

  /** Reads back the number of a name `prefix_<digits>_.png`; `None` for any other name. */
  function FilenameNumber(prefix: string, name: string): Option<nat>
  {
    var head := prefix + "_";
    if |name| >= |head| + 5 && name[..|head|] == head && name[|name| - 5..] == "_.png" then
      var digits := name[|head|..|name| - 5];
      if digits != [] && AllDigits(digits) then Some(DigitsValue(digits)) else None
    else None
  }

  /**
   * Within the node's declared input bounds (loop_count >= 0, multiplier >= 1) the name is the
   * prefix, `_`, the product written in at least five digits (all of its digits when it has more:
   * nothing is truncated) and `_.png`; reading the number back gives the product.
   */
  lemma FilenameRoundTrip(loopCount: int, multiplier: int, prefix: string)
    requires loopCount >= 0 && multiplier >= 1
    ensures loopCount * multiplier >= 0
    ensures var name := FormatFilename(loopCount, multiplier, prefix);
      && |name| == |prefix| + 1 + (if |Decimal(loopCount * multiplier)| < 5 then 5 else |Decimal(loopCount * multiplier)|) + 5
      && name[..|prefix|] == prefix
      && FilenameNumber(prefix, name) == Some(loopCount * multiplier)
  {
    assert loopCount * multiplier >= loopCount * 1 >= 0;
    PaddedNameRoundTrip(loopCount * multiplier, prefix);
  }

  /** The name built around any natural number reads back as that number. */
  lemma PaddedNameRoundTrip(n: nat, prefix: string)
    ensures var name := prefix + "_" + Format05d(n) + "_.png";
      && |name| == |prefix| + 1 + (if |Decimal(n)| < 5 then 5 else |Decimal(n)|) + 5
      && name[..|prefix|] == prefix
      && FilenameNumber(prefix, name) == Some(n)
  {
    Format05dValue(n);
    var head := prefix + "_";
    var digits := Format05d(n);
    var name := head + digits + "_.png";
    assert name[..|head|] == head;
    assert name[|name| - 5..] == "_.png";
    assert name[|head|..|name| - 5] == digits;
  }

  /** Example: padding to five digits. */
  lemma FormatFilenameExample()
    ensures FormatFilename(3, 10, "frame") == "frame_00030_.png"
  {
    assert Format05d(30) == "00030" by {
      assert Decimal(30) == "30" by { assert Decimal(3) == "3"; }
      assert Repeat('0', 3) == "000";
    }
  }

  /** Example: zero is five zeros. */
  lemma FormatFilenameZeroExample()
    ensures FormatFilename(0, 1, "x") == "x_00000_.png"
  {
    assert Format05d(0) == "00000" by {
      assert Decimal(0) == "0";
      assert Repeat('0', 4) == "0000";
    }
  }

  /** Example: a six-digit number is printed in full. */
  lemma FormatFilenameWideExample()
    ensures FormatFilename(20000, 10, "x") == "x_200000_.png"
  {
    WideDecimal();
    assert Format05d(200000) == "200000";
  }

  lemma WideDecimal()
    ensures Decimal(200000) == "200000"
  {
    assert Decimal(2) == "2";
    assert Decimal(20) == "20";
    assert Decimal(200) == "200";
    assert Decimal(2000) == "2000";
    assert Decimal(20000) == "20000";
  }

  /** Outside the declared bounds a negative product keeps its sign inside the padded width. */
  lemma NegativeProductKeepsSign()
    ensures FormatFilename(-3, 1, "x") == "x_-0003_.png"
    ensures FilenameNumber("x", FormatFilename(-3, 1, "x")) == None
  {
    assert Format05d(-3) == "-0003" by {
      assert Decimal(3) == "3";
      assert Repeat('0', 3) == "000";
    }
    assert "x_-0003_.png"[2..7][0] == '-';
  }
}
