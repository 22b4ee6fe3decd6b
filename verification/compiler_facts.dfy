/// What the mask compiler guarantees: `addRange` appends exactly the missing
/// characters of its range, each token moves the two counters as the grammar
/// says, and the compiled tables come out ordered, so that enumerating them
/// by key (as the key handler does) visits them in the order they were filled.
module CompilerFacts {
  import opened JsText
  import opened MaskRules

  // ---------------------------------------------------------------------------
  // addRange

  /// `addRange` keeps the list as a prefix, appends the characters of the
  /// range the list lacked, and adds nothing outside the range.
  lemma {:induction false} AddCodesContents(list: seq<char>, lo: int, hi: int)
    ensures var r := AddCodes(list, lo, hi);
      |list| <= |r| && r[..|list|] == list
      && (forall c :: c in r <==> c in list || lo <= c as int <= hi)
      && (forall k :: |list| <= k < |r| ==> lo <= r[k] as int <= hi && r[k] !in list)
    decreases hi - lo + 1
  {
    if lo <= hi {
      var next := if IsCharCode(lo) && lo as char !in list then list + [lo as char] else list;
      AddCodesContents(next, lo + 1, hi);
      var r := AddCodes(next, lo + 1, hi);
      assert r[..|list|] == next[..|list|];
      forall c
        ensures c in r <==> c in list || lo <= c as int <= hi
      {
        if c as int == lo {
          assert (lo as char) == c;
        }
      }
      forall k | |list| <= k < |r|
        ensures lo <= r[k] as int <= hi && r[k] !in list
      {
        if k < |next| {
          assert r[k] == next[k];
        }
      }
    }
  }

  /// The characters `addRange` appends come in increasing code order.
  lemma {:induction false} AddCodesIncreasing(list: seq<char>, lo: int, hi: int)
    ensures var r := AddCodes(list, lo, hi);
      forall a, b :: |list| <= a < b < |r| ==> r[a] < r[b]
    decreases hi - lo + 1
  {
    if lo <= hi {
      var next := if IsCharCode(lo) && lo as char !in list then list + [lo as char] else list;
      AddCodesIncreasing(next, lo + 1, hi);
      AddCodesContents(next, lo + 1, hi);
      var r := AddCodes(next, lo + 1, hi);
      forall a, b | |list| <= a < b < |r|
        ensures r[a] < r[b]
      {
        if a < |next| {
          assert r[a] == next[a] == lo as char;
          assert lo + 1 <= r[b] as int;
        }
      }
    }
  }

  /// `addRange` keeps the list as a prefix, appends the characters of the
  /// range the list lacked in increasing code order, adds nothing outside
  /// the range, and never introduces a duplicate.
  lemma AddCodesSpec(list: seq<char>, lo: int, hi: int)
    ensures var r := AddCodes(list, lo, hi);
      |list| <= |r| && r[..|list|] == list
      && (forall c :: c in r <==> c in list || lo <= c as int <= hi)
      && (forall k :: |list| <= k < |r| ==> lo <= r[k] as int <= hi && r[k] !in list)
      && (forall a, b :: |list| <= a < b < |r| ==> r[a] < r[b])
      && (NoDuplicates(list) ==> NoDuplicates(r))
  {
    AddCodesContents(list, lo, hi);
    AddCodesIncreasing(list, lo, hi);
    var r := AddCodes(list, lo, hi);
    if NoDuplicates(list) {
      forall i, j | 0 <= i < j < |r|
        ensures r[i] != r[j]
      {
        if j < |list| {
          assert r[i] == list[i] && r[j] == list[j];
        } else if i < |list| {
          assert r[i] == list[i] && r[i] in list;
        }
      }
    }
  }

  lemma AddRangeSpec(list: seq<char>, start: char, stop: char)
    ensures var r := AddRange(list, start, stop);
      |list| <= |r| && r[..|list|] == list
      && (forall c :: c in r <==> c in list || start <= c <= stop)
      && (forall k :: |list| <= k < |r| ==> start <= r[k] <= stop && r[k] !in list)
      && (NoDuplicates(list) ==> NoDuplicates(r))
  {
    AddCodesSpec(list, start as int, stop as int);
  }

  // ---------------------------------------------------------------------------
  // token effects

  /// A token either leaves the character rules alone or appends one rule for
  /// the current area at the current offset and index; only then do both
  /// counters move on, and only a `[...]` group or an escape does it.
  lemma TokenCharRule(mask: string, area: nat, s: Scan)
    requires s.j < |mask| && Token(mask, area, s).Next?
    ensures var n := Token(mask, area, s).next;
      var before := s.tables.valuesRange;
      n.tables.valuesRange == before
      || (n.tables.valuesRange == before + [n.tables.valuesRange[|before|]]
          && (mask[s.j] == '[' || mask[s.j] == '\\')
          && n.tables.valuesRange[|before|].offset == s.offset
          && n.tables.valuesRange[|before|].index == s.index
          && n.tables.valuesRange[|before|].area == area
          && n.offset == s.offset + 1 && n.index == s.index + 1)
  {
  }

  /// A `[` token: a closed group appends exactly one rule, built from the
  /// group's keys, ignore keys and sign flag at the current index, area and
  /// offset, and both counters move on; an unclosed one moves only the
  /// offset and resumes at the character after the `[`; a range without its
  /// upper end raises.
  lemma BracketToken(mask: string, area: nat, s: Scan)
    requires s.j < |mask| && mask[s.j] == '['
    ensures match ScanBracket(mask, s.j + 1, Bracket([], [], false))
      case Closed(k, b) =>
        Token(mask, area, s) == Next(Scan(k + 1, s.index + 1, s.offset + 1,
          s.tables.(valuesRange := s.tables.valuesRange + [CharRule(s.index, area, s.offset, b.sign, false, false, b.keys, b.ignoreKeys)])))
      case Unclosed(_) => Token(mask, area, s) == Next(Scan(s.j + 1, s.index, s.offset + 1, s.tables))
      case BadRange => Token(mask, area, s) == Failed
  {
  }

  /// `s` with every `c` removed.
  function Without(s: seq<char>, c: char): (r: seq<char>)
    ensures c !in r && |r| <= |s|
  {
    if s == [] then [] else (if s[0] == c then [] else [s[0]]) + Without(s[1..], c)
  }

  /// The part of a group before any `!`: each character is a key, except
  /// `^`, which marks the group as a sign slot.
  lemma {:induction false} ScanBracketKeys(mask: string, k: nat, p: nat, b: Bracket)
    requires 1 <= k <= p <= |mask| && b.ignoreKeys == []
    requires forall x :: k <= x < p ==> mask[x] != '!' && mask[x] != '.' && mask[x] != ']'
    ensures ScanBracket(mask, k, b)
         == ScanBracket(mask, p, b.(keys := b.keys + Without(mask[k..p], '^'), sign := b.sign || '^' in mask[k..p]))
    decreases p - k
  {
    if k == p {
      assert b.(keys := b.keys + [], sign := b.sign || false) == b;
    } else {
      assert mask[k..p] == [mask[k]] + mask[k + 1..p];
      if mask[k] == '^' {
        ScanBracketKeys(mask, k + 1, p, b.(sign := true));
        assert Without(mask[k..p], '^') == Without(mask[k + 1..p], '^');
        assert mask[k..p][0] == '^';
      } else {
        ScanBracketKeys(mask, k + 1, p, b.(keys := b.keys + [mask[k]]));
        assert b.keys + [mask[k]] + Without(mask[k + 1..p], '^') == b.keys + Without(mask[k..p], '^');
      }
    }
  }

  /// Once the ignore list is open, every character up to the `]` is an
  /// ignore key, the `!` that opened it included.
  lemma {:induction false} ScanBracketIgnore(mask: string, k: nat, e: nat, b: Bracket)
    requires 1 <= k <= e < |mask| && mask[e] == ']'
    requires k < e ==> mask[k] == '!' || b.ignoreKeys != []
    requires forall x :: k <= x < e ==> mask[x] != '.' && mask[x] != ']'
    ensures ScanBracket(mask, k, b) == Closed(e, b.(ignoreKeys := b.ignoreKeys + mask[k..e]))
    decreases e - k
  {
    if k == e {
      assert b.(ignoreKeys := b.ignoreKeys + []) == b;
    } else {
      ScanBracketIgnore(mask, k + 1, e, b.(ignoreKeys := b.ignoreKeys + [mask[k]]));
      assert mask[k..e] == [mask[k]] + mask[k + 1..e];
    }
  }

  /// A group `[keys!ignored]` without ranges: the characters before the first
  /// `!` are its keys (less any `^`, which makes it a sign slot), and the
  /// `!` with everything after it up to the `]` are its ignore keys.
  lemma ScanBracketBody(mask: string, j: nat, p: nat, e: nat)
    requires j < p <= e < |mask| && mask[e] == ']'
    requires forall x :: j < x < p ==> mask[x] != '!' && mask[x] != '.' && mask[x] != ']'
    requires p < e ==> mask[p] == '!'
    requires forall x :: p <= x < e ==> mask[x] != '.' && mask[x] != ']'
    ensures ScanBracket(mask, j + 1, Bracket([], [], false))
         == Closed(e, Bracket(Without(mask[j + 1..p], '^'), mask[p..e], '^' in mask[j + 1..p]))
  {
    ScanBracketKeys(mask, j + 1, p, Bracket([], [], false));
    var b := Bracket(Without(mask[j + 1..p], '^'), [], '^' in mask[j + 1..p]);
    assert Bracket([], [], false).(keys := [] + Without(mask[j + 1..p], '^'), sign := false || '^' in mask[j + 1..p]) == b;
    ScanBracketIgnore(mask, p, e, b);
    assert b.(ignoreKeys := [] + mask[p..e]) == Bracket(Without(mask[j + 1..p], '^'), mask[p..e], '^' in mask[j + 1..p]);
  }

  /// A recognised escape `\A \a \i \u \!` yields exactly one rule and moves
  /// both counters; an unrecognised one moves only the offset.
  lemma EscapeToken(mask: string, area: nat, s: Scan)
    requires s.j < |mask| && mask[s.j] == '\\'
    ensures Token(mask, area, s).Next?
    ensures var n := Token(mask, area, s).next;
      n.offset == s.offset + 1 && n.j == s.j + 2
      && (if s.j + 1 < |mask| && mask[s.j + 1] in "Aaiu!" then
            n.index == s.index + 1 && |n.tables.valuesRange| == |s.tables.valuesRange| + 1
          else n.index == s.index && n.tables == s.tables)
  {
  }

  /// `![...]` and `*[...]` move neither counter and add no rule; a closed one
  /// replaces the area's ignore or delimiter keys by the characters it holds.
  lemma KeyListToken(mask: string, area: nat, s: Scan)
    requires s.j + 1 < |mask| && (mask[s.j] == '!' || mask[s.j] == '*') && mask[s.j + 1] == '['
    ensures Token(mask, area, s).Next?
    ensures var n := Token(mask, area, s).next;
      n.offset == s.offset && n.index == s.index
      && n.tables.valuesRange == s.tables.valuesRange
      && n.tables.maxValueRange == s.tables.maxValueRange
      && (n.j > s.j + 1 ==>
            var keys := mask[s.j + 2..n.j - 1];
            mask[n.j - 1] == ']' && ']' !in keys
            && if mask[s.j] == '!' then n.tables.ignoreRange == s.tables.ignoreRange[area := keys]
               else n.tables.delimiterRange == s.tables.delimiterRange[area := keys])
  {
    var r := ScanKeyList(mask, s.j + 2, []);
    if r.Some? {
      assert [] + mask[s.j + 2..r.value.0] == mask[s.j + 2..r.value.0];
    }
  }

  /// A closed `{...}` consumes one index and no offset, and its rule looks at
  /// the `length` positions that end at the current offset.
  lemma BraceToken(mask: string, area: nat, s: Scan)
    requires s.j < |mask| && mask[s.j] == '{'
    ensures Token(mask, area, s).Next?
    ensures var n := Token(mask, area, s).next;
      n.offset == s.offset && n.tables.valuesRange == s.tables.valuesRange
      && (n.j > s.j + 1 ==>
            n.index == s.index + 1
            && |n.tables.maxValueRange| == |s.tables.maxValueRange| + 1
            && var rule := n.tables.maxValueRange[|s.tables.maxValueRange|];
            rule.index == s.index && rule.area == area
            && (rule.span.Some? ==> rule.span.value.offset + rule.span.value.length == s.offset))
  {
  }

  // ---------------------------------------------------------------------------
  // ordering of the compiled tables

  /// Rules are stored with increasing keys, areas never go back, the
  /// character rules of one area have increasing offsets, and no key is used
  /// by both rule tables.
  predicate Ordered(t: Tables)
  {
    (forall a, b :: 0 <= a < b < |t.valuesRange| ==>
       t.valuesRange[a].index < t.valuesRange[b].index
       && t.valuesRange[a].area <= t.valuesRange[b].area
       && (t.valuesRange[a].area == t.valuesRange[b].area ==> t.valuesRange[a].offset < t.valuesRange[b].offset))
    && (forall a, b :: 0 <= a < b < |t.maxValueRange| ==>
          t.maxValueRange[a].index < t.maxValueRange[b].index
          && t.maxValueRange[a].area <= t.maxValueRange[b].area)
    && (forall r, v :: r in t.valuesRange && v in t.maxValueRange ==> r.index != v.index)
  }

  /// Every key stored so far is below `index`.
  predicate IndexBelow(t: Tables, index: nat)
  {
    (forall r :: r in t.valuesRange ==> r.index < index)
    && (forall v :: v in t.maxValueRange ==> v.index < index)
  }

  /// Every rule stored so far belongs to an area below `n`.
  predicate AreasBelow(t: Tables, n: nat)
  {
    (forall r :: r in t.valuesRange ==> r.area < n)
    && (forall v :: v in t.maxValueRange ==> v.area < n)
    && (forall k :: k in t.ignoreRange ==> k < n)
    && (forall k :: k in t.delimiterRange ==> k < n)
  }

  /// Every character rule of `area` stored so far sits below `offset`.
  predicate OffsetsBelow(t: Tables, area: nat, offset: nat)
  {
    forall r :: r in t.valuesRange && r.area == area ==> r.offset < offset
  }

  predicate ScanInvariant(s: Scan, area: nat)
  {
    Ordered(s.tables) && IndexBelow(s.tables, s.index) && AreasBelow(s.tables, area + 1)
    && OffsetsBelow(s.tables, area, s.offset)
  }

  lemma AppendCharRule(s: Scan, area: nat, rule: CharRule, n: Scan)
    requires ScanInvariant(s, area)
    requires rule.index == s.index && rule.area == area && rule.offset == s.offset
    requires n.tables == s.tables.(valuesRange := s.tables.valuesRange + [rule])
    requires n.index == s.index + 1 && n.offset == s.offset + 1
    ensures ScanInvariant(n, area)
  {
    var vr := n.tables.valuesRange;
    assert forall a :: 0 <= a < |s.tables.valuesRange| ==> vr[a] == s.tables.valuesRange[a];
    assert forall r :: r in vr ==> r in s.tables.valuesRange || r == rule;
  }

  lemma AppendValueRule(s: Scan, area: nat, rule: ValueRule, n: Scan)
    requires ScanInvariant(s, area)
    requires rule.index == s.index && rule.area == area
    requires n.tables == s.tables.(maxValueRange := s.tables.maxValueRange + [rule])
    requires n.index == s.index + 1 && n.offset == s.offset
    ensures ScanInvariant(n, area)
  {
    var mv := n.tables.maxValueRange;
    assert forall a :: 0 <= a < |s.tables.maxValueRange| ==> mv[a] == s.tables.maxValueRange[a];
    assert forall v :: v in mv ==> v in s.tables.maxValueRange || v == rule;
  }

  /// A token that adds no rule keeps the invariant as long as the counters do
  /// not go back and the key lists it stores belong to the current area.
  lemma KeepRules(s: Scan, area: nat, n: Scan)
    requires ScanInvariant(s, area)
    requires n.tables.valuesRange == s.tables.valuesRange && n.tables.maxValueRange == s.tables.maxValueRange
    requires n.index >= s.index && n.offset >= s.offset
    requires forall k :: k in n.tables.ignoreRange ==> k in s.tables.ignoreRange || k == area
    requires forall k :: k in n.tables.delimiterRange ==> k in s.tables.delimiterRange || k == area
    ensures ScanInvariant(n, area)
  {
  }

  lemma TokenKeepsOrder(mask: string, area: nat, s: Scan)
    requires s.j < |mask| && ScanInvariant(s, area)
    ensures Token(mask, area, s).Next? ==> ScanInvariant(Token(mask, area, s).next, area)
  {
    var j, t := s.j, s.tables;
    var step := Token(mask, area, s);
    if mask[j] == '[' {
      match ScanBracket(mask, j + 1, Bracket([], [], false))
      case BadRange =>
      case Closed(k, b) =>
        var rule := CharRule(s.index, area, s.offset, b.sign, false, false, b.keys, b.ignoreKeys);
        AppendCharRule(s, area, rule, step.next);
      case Unclosed(_) =>
        KeepRules(s, area, step.next);
    } else if mask[j] == '\\' {
      match EscapeRule(if j + 1 < |mask| then Some(mask[j + 1]) else None, s.index, area, s.offset)
      case Some(rule) => AppendCharRule(s, area, rule, step.next);
      case None => KeepRules(s, area, step.next);
    } else if mask[j] == '!' && j + 1 < |mask| && mask[j + 1] == '[' {
      KeepRules(s, area, step.next);
    } else if mask[j] == '*' && j + 1 < |mask| && mask[j + 1] == '[' {
      KeepRules(s, area, step.next);
    } else if mask[j] == '{' {
      match ScanBrace(mask, j + 1, NewBrace)
      case Some((k, b)) => AppendValueRule(s, area, BraceRule(s.index, area, s.offset, b), step.next);
      case None => KeepRules(s, area, step.next);
    } else {
      KeepRules(s, area, step.next);
    }
  }

  lemma {:induction false} ScanAreaKeepsOrder(mask: string, area: nat, s: Scan)
    requires ScanInvariant(s, area)
    ensures ScanInvariant(ScanArea(mask, area, s).last, area)
    ensures ScanArea(mask, area, s).last.index >= s.index
    decreases |mask| - s.j
  {
    if s.j < |mask| {
      TokenKeepsOrder(mask, area, s);
      match Token(mask, area, s)
      case Failed =>
      case Next(n) =>
        assert n.index >= s.index;
        ScanAreaKeepsOrder(mask, area, n);
    }
  }

  lemma {:induction false} CompileAreasKeepsOrder(masks: seq<string>, delimiterLength: nat, i: nat, index: nat, t: Tables)
    requires i <= |masks|
    requires Ordered(t) && IndexBelow(t, index) && AreasBelow(t, i)
    ensures var r := CompileAreas(masks, delimiterLength, i, index, t);
      Ordered(r.tables) && AreasBelow(r.tables, |masks|)
    decreases |masks| - i
  {
    if i < |masks| {
      var start := if i == 0 then index else index + delimiterLength;
      var a := ScanArea(masks[i], i, Scan(0, start, 0, t));
      IndexWithin(t, index, start);
      AreaKeepsOrder(masks[i], i, start, t);
      if a.ok {
        CompileAreasKeepsOrder(masks, delimiterLength, i + 1, a.last.index, a.last.tables);
      } else {
        AreasWithin(a.last.tables, i + 1, |masks|);
      }
    }
  }

  /// The scan of the remaining areas stops at the first area that raises and
  /// reports success exactly when it finished all of them.
  lemma {:induction false} CompileAreasFinish(masks: seq<string>, delimiterLength: nat, i: nat, index: nat, t: Tables)
    requires i <= |masks|
    ensures var r := CompileAreas(masks, delimiterLength, i, index, t);
      i <= r.areas <= |masks| && (r.ok <==> r.areas == |masks|)
    decreases |masks| - i
  {
    if i < |masks| {
      var start := if i == 0 then index else index + delimiterLength;
      var a := ScanArea(masks[i], i, Scan(0, start, 0, t));
      if a.ok {
        CompileAreasFinish(masks, delimiterLength, i + 1, a.last.index, a.last.tables);
      }
    }
  }

  /// One area, scanned from the start with the index counter at `start`.
  lemma AreaKeepsOrder(mask: string, area: nat, start: nat, t: Tables)
    requires Ordered(t) && IndexBelow(t, start) && AreasBelow(t, area)
    ensures var a := ScanArea(mask, area, Scan(0, start, 0, t));
      Ordered(a.last.tables) && IndexBelow(a.last.tables, a.last.index) && AreasBelow(a.last.tables, area + 1)
  {
    var s := Scan(0, start, 0, t);
    assert ScanInvariant(s, area);
    ScanAreaKeepsOrder(mask, area, s);
  }

  lemma IndexWithin(t: Tables, index: nat, start: nat)
    requires IndexBelow(t, index) && index <= start
    ensures IndexBelow(t, start)
  {
  }

  lemma AreasWithin(t: Tables, n: nat, m: nat)
    requires AreasBelow(t, n) && n <= m
    ensures AreasBelow(t, m)
  {
  }

  /// The compiled tables are ordered, and every rule belongs to an existing
  /// area; the scan reports success exactly when it finished every area.
  lemma CompileOrdered(masks: seq<string>, delimiterLength: nat)
    ensures var c := Compile(masks, delimiterLength);
      Ordered(c.tables) && AreasBelow(c.tables, |masks|) && c.areas <= |masks|
      && (c.ok <==> c.areas == |masks|)
  {
    CompileAreasKeepsOrder(masks, delimiterLength, 0, 0, NoTables);
    CompileAreasFinish(masks, delimiterLength, 0, 0, NoTables);
  }

  /// Consequently the character rules of one area sit at distinct offsets.
  lemma CompiledOffsetsDistinct(masks: seq<string>, delimiterLength: nat)
    ensures var vr := Compile(masks, delimiterLength).tables.valuesRange;
      forall a, b :: 0 <= a < |vr| && 0 <= b < |vr| && a != b && vr[a].area == vr[b].area ==>
        vr[a].offset != vr[b].offset
  {
    CompileOrdered(masks, delimiterLength);
  }
}
