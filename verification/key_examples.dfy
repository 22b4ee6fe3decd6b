/// Whole key sequences on small masks, worked through `KeyStep`.
module KeyExamples {
  import opened JsText
  import opened MaskRules
  import opened KeyReducer
  import opened ReducerFacts

  const Digits := "0123456789"

  /// A mask of literal characters compiles to no rules at all.
  lemma LiteralMaskHasNoRules()
    ensures Compile(["dd"], 1) == Compiled(NoTables, true, 1)
  {
    var s0 := Scan(0, 0, 0, NoTables);
    assert Token("dd", 0, s0) == Next(Scan(1, 1, 1, NoTables));
    assert Token("dd", 0, Scan(1, 1, 1, NoTables)) == Next(Scan(2, 2, 2, NoTables));
    assert ScanArea("dd", 0, s0) == AreaEnd(Scan(2, 2, 2, NoTables), true);
  }


  /// In a rule-free two-digit area the first digit fills the first `d`.
  lemma FirstDigitExample()
    ensures KeyStep(NoTables, ["dd"], Widget(["dd"], 0, 0, ""), "3") == Widget(["3d"], 0, 1, "")
  {
    assert Chars("dd") == ["d", "d"];
    assert IndexOf(["d", "d"], "d") == 0;
    RulelessDigit(NoTables, "dd", 0, ["d", "d"], 0, "", "3");
    assert Advance("dd", 1) == 1;
    assert Concat(["3", "d"]) == "3d";
  }

  /// ... and the second digit fills the remaining one.
  lemma SecondDigitExample()
    ensures KeyStep(NoTables, ["dd"], Widget(["3d"], 0, 1, ""), "7") == Widget(["37"], 0, 2, "")
  {
    assert Chars("3d") == ["3", "d"];
    assert IndexOf(["3", "d"], "d") == 1;
    RulelessDigit(NoTables, "dd", 0, ["3", "d"], 1, "", "7");
    assert Advance("dd", 2) == 2;
    assert ["3", "d"][1 := "7"] == ["3", "7"];
    assert Concat(["3", "7"]) == "37";
    assert Reduce(NoTables, "dd", 0, Chars("3d"), 1, "", "7") == Committed(["3", "7"], 2, "");
  }

  /// A two-digit area: a literal mask leaves the digits to the fast path;
  /// "3" then "7" gives "37" with the cursor after both.
  lemma DigitFastPathExample()
    ensures var t := Compile(["dd"], 1).tables;
      var w := Widget(["dd"], 0, FirstDigitSlot("dd"), "");
      KeyStep(t, ["dd"], KeyStep(t, ["dd"], w, "3"), "7") == Widget(["37"], 0, 2, "")
  {
    LiteralMaskHasNoRules();
    assert FirstDigitSlot("dd") == 0;
    FirstDigitExample();
    SecondDigitExample();
  }

  /// The minutes rule `{v2*59}`: `v` (a value rule), then `2*` (it looks at
  /// the two positions before it), then its maximum 59.
  const MinutesRule := ValueRule(2, 0, Some(Span(0, 2)), MaxValue(Some(59)))

  /// The two numbers of the rule as `parseInt` reads them.
  lemma MinutesNumbers()
    ensures ParseInt("2") == Some(2) && ParseInt("59") == Some(59)
  {
    ParseIntDigits("2");
    ParseIntDigits("59");
    assert DigitsValue("59", false) == 59 by {
      assert "59"[..1] == "5";
    }
  }

  /// After the `*`: the digits `59` up to the closing `}` are the maximum.
  lemma MinutesTail()
    ensures ScanBrace("dd{v2*59}", 6, Brace(false, Some(2), [])) == Some((8, Brace(false, Some(2), "59")))
  {
    var m := "dd{v2*59}";
    var b := Brace(false, Some(2), "59");
    assert ScanBrace(m, 8, b) == Some((8, b));
    assert "5" + ['9'] == "59" && [] + ['5'] == "5";
    assert ScanBrace(m, 7, Brace(false, Some(2), "5")) == Some((8, b));
  }

  /// At the `*`, the "2" collected so far becomes the length.
  lemma MinutesStar()
    ensures ScanBrace("dd{v2*59}", 5, Brace(false, Some(-1), "2")) == ScanBrace("dd{v2*59}", 6, Brace(false, Some(2), []))
  {
    ParseIntDigits("2");
    assert ScanBrace("dd{v2*59}", 5, Brace(false, Some(-1), "2")) == ScanBrace("dd{v2*59}", 6, Brace(false, ParseInt("2"), []));
  }

  /// Before the `*`: `v` makes it a value rule and `2` is its length.
  lemma MinutesHead()
    ensures ScanBrace("dd{v2*59}", 3, NewBrace) == ScanBrace("dd{v2*59}", 6, Brace(false, Some(2), []))
  {
    var m := "dd{v2*59}";
    MinutesStar();
    assert [] + ['2'] == "2";
    assert ScanBrace(m, 4, NewBrace) == ScanBrace(m, 5, Brace(false, Some(-1), "2"));
  }

  /// The body `v2*59}` of the rule: a value rule over two positions with
  /// maximum 59, which stored at area offset 2 with index 2 is `MinutesRule`.
  lemma MinutesBrace()
    ensures ScanBrace("dd{v2*59}", 3, NewBrace) == Some((8, Brace(false, Some(2), "59")))
  {
    MinutesHead();
    MinutesTail();
  }

  /// Stored at area offset 2 with index 2, that body is `MinutesRule`.
  lemma MinutesBraceRule()
    ensures BraceRule(2, 0, 2, Brace(false, Some(2), "59")) == MinutesRule
  {
    MinutesNumbers();
  }

  /// The mask `dd{v2*59}`: two literal slots, then the rule, which closes at
  /// area offset 2 with index 2, so it looks at offsets 0 and 1.
  lemma MinutesRuleCompiles()
    ensures Compile(["dd{v2*59}"], 1) == Compiled(Tables([], map[], map[], [MinutesRule]), true, 1)
  {
    var m := "dd{v2*59}";
    MinutesBrace();
    MinutesBraceRule();
    var t := Tables([], map[], map[], [MinutesRule]);
    var s0 := Scan(0, 0, 0, NoTables);
    assert Token(m, 0, s0) == Next(Scan(1, 1, 1, NoTables));
    assert Token(m, 0, Scan(1, 1, 1, NoTables)) == Next(Scan(2, 2, 2, NoTables));
    assert Token(m, 0, Scan(2, 2, 2, NoTables)) == Next(Scan(9, 3, 2, t));
    assert ScanArea(m, 0, s0) == AreaEnd(Scan(9, 3, 2, t), true);
  }

  /// Written `{v*2*59}`, the rule reads its length at the first `*`, where
  /// nothing has been collected yet: the length is NaN, the rule has no span
  /// and it never reports.
  lemma LeadingStarLosesSpan(cells: seq<string>, cursor: int)
    ensures ScanBrace("{v*2*59}", 1, NewBrace) == Some((7, Brace(false, None, "59")))
    ensures BraceRule(2, 0, 2, Brace(false, None, "59")).span == None
    ensures Check(BraceRule(2, 0, 2, Brace(false, None, "59")), cells, cursor) == Pass
  {
    var m := "{v*2*59}";
    assert ParseInt([]) == None;
    var b := Brace(false, None, "59");
    assert ScanBrace(m, 7, b) == Some((7, b));
    assert "5" + ['9'] == "59" && [] + ['5'] == "5";
    assert ScanBrace(m, 6, Brace(false, None, "5")) == Some((7, b));
    assert ScanBrace(m, 5, Brace(false, None, [])) == Some((7, b));
    assert ScanBrace(m, 4, Brace(false, None, "2")) == Some((7, b));
    assert ScanBrace(m, 3, Brace(false, None, [])) == Some((7, b));
  }

  /// Once the cursor reaches the rule's key, "61" is refused ...
  lemma MinutesRuleRefuses()
    ensures Check(MinutesRule, ["6", "1"], 2) == Fail("error value; offset 0/ length 2")
  {
    ParseIntDigits("61");
    assert DigitsValue("61", false) == 61 by {
      assert "61"[..1] == "6";
    }
    assert SpanCells(["6", "1"], Span(0, 2)) == ["6", "1"];
    assert Concat(["6", "1"]) == "61";
    assert ParseInt("61") == Some(61);
    MinutesMessage();
  }

  /// The message a failing minutes rule stores.
  lemma MinutesMessage()
    ensures ValueMessage(Span(0, 2)) == "error value; offset 0/ length 2"
  {
    assert DigitChar(0) == '0' && DigitChar(2) == '2';
    assert IntToString(0) == "0" && IntToString(2) == "2";
  }

  /// ... "59" passes ...
  lemma MinutesRuleAccepts()
    ensures Check(MinutesRule, ["5", "9"], 2) == Pass
  {
    ParseIntDigits("59");
    assert DigitsValue("59", false) == 59 by {
      assert "59"[..1] == "5";
    }
    assert JsSlice(["5", "9"], 0, 2) == ["5", "9"];
    assert Concat(["5", "9"]) == "59";
  }

  /// ... and a span still holding a `d` is not checked.
  lemma MinutesRuleWaits()
    ensures Check(MinutesRule, ["6", "d"], 2) == Pass
  {
    assert JsSlice(["6", "d"], 0, 2) == ["6", "d"];
  }

  /// A delimiter key justifies a later field too, once the fields before it
  /// are complete: "12 7d" followed by a space becomes "12 07".
  lemma LaterFieldJustified(cursor: int)
    ensures ConsolidateScan(["1", "2", " ", "7", "d", " "], [' '], 0, NoRun, cursor)
         == (["1", "2", " ", "0", "7", " "], cursor + 1)
  {
    var pre, digits := ["1", "2", " "], ["7"];
    assert Repeat("d", 1) == ["d"] && Repeat("0", 1) == ["0"];
    assert Lists([' '], " ") && Lists([' '], pre[|pre| - 1]);
    ConsolidateRun(pre, digits, 1, " ", [], [' '], cursor);
    assert pre + digits + Repeat("d", 1) + [" "] + [] == ["1", "2", " ", "7", "d", " "];
    assert pre + Repeat("0", 1) + digits + [" "] + [] == ["1", "2", " ", "0", "7", " "];
  }

  /// A latitude sign group: position 0 takes "+" or "-", position 1 takes N
  /// or S (the mask `[^+-][^NS]`).
  const SignRules := [CharRule(0, 0, 0, true, false, false, "+-", []), CharRule(1, 0, 1, true, false, false, "NS", [])]

  /// "-" goes into the symbol position and turns the letter position to S.
  lemma MinusSetsSouth()
    ensures SignKey(SignRules, "-", KeyState(["?", "?"], 0, false, false)) == KeyState(["-", "S"], 0, true, true)
  {
    var r := SignRules;
    assert JsSet(["?", "?"], 0, "-") == ["-", "?"];
    assert SignWrite(r, "-", 2, KeyState(["-", "?"], 0, true, true)) == KeyState(["-", "?"], 0, true, true);
    assert Hemisphere("NS", "-") == Some("S");
    assert JsSet(["-", "?"], 1, "S") == ["-", "S"];
    assert SignPropagate(r, "-", 2, ["-", "S"]) == ["-", "S"];
  }

  /// Typing S into the letter position turns the symbol position to "-".
  lemma SouthSetsMinus()
    ensures OtherKey(SignRules, "S", KeyState(["?", "?"], 1, false, false)) == Some(KeyState(["-", "S"], 1, true, true))
  {
    var r := SignRules;
    assert JsSet(["?", "?"], 1, "S") == ["?", "S"];
    assert RuleKey(r, "S", 2, KeyState(["?", "S"], 1, true, true)) == Some(KeyState(["?", "S"], 1, true, true));
    assert JsSet(["?", "S"], 0, "-") == ["-", "S"];
    assert Reconcile(r, "S", 2, ["-", "S"]) == ["-", "S"];
  }

  /// The mask `[^+-][^NS]` compiles to exactly the sign group above.
  lemma SignMaskCompiles()
    ensures Compile(["[^+-][^NS]"], 1) == Compiled(Tables(SignRules, map[], map[], []), true, 1)
  {
    var m := "[^+-][^NS]";
    var e := Bracket([], [], false);
    assert ScanBracket(m, 1, e) == Closed(4, Bracket("+-", [], true)) by {
      assert ScanBracket(m, 4, Bracket("+-", [], true)) == Closed(4, Bracket("+-", [], true));
      assert ScanBracket(m, 3, Bracket("+", [], true)) == Closed(4, Bracket("+-", [], true));
      assert ScanBracket(m, 2, Bracket([], [], true)) == Closed(4, Bracket("+-", [], true));
    }
    assert ScanBracket(m, 6, e) == Closed(9, Bracket("NS", [], true)) by {
      assert ScanBracket(m, 9, Bracket("NS", [], true)) == Closed(9, Bracket("NS", [], true));
      assert ScanBracket(m, 8, Bracket("N", [], true)) == Closed(9, Bracket("NS", [], true));
      assert ScanBracket(m, 7, Bracket([], [], true)) == Closed(9, Bracket("NS", [], true));
    }
    var t1 := Tables([SignRules[0]], map[], map[], []);
    var t2 := Tables(SignRules, map[], map[], []);
    assert Token(m, 0, Scan(0, 0, 0, NoTables)) == Next(Scan(5, 1, 1, t1));
    assert Token(m, 0, Scan(5, 1, 1, t1)) == Next(Scan(10, 2, 2, t2));
    assert ScanArea(m, 0, Scan(0, 0, 0, NoTables)) == AreaEnd(Scan(10, 2, 2, t2), true);
  }
}
