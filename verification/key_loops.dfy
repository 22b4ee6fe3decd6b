/// The loops of `processKeyInput`, one method per loop of the handler, each
/// proved to compute the stage function of `KeyReducer` it runs. The class in
/// gis_mask_helper.dfy strings them together.
module KeyLoops {
  import opened JsText
  import opened MaskRules
  import opened KeyReducer

  /// The `$.each` that copies the active area's rules out of `valuesRange`
  /// (and, with `ValueArea`, out of `maxValueRange`).
  method CollectArea<T(==,!new)>(rules: seq<T>, areaOf: T -> nat, area: nat) returns (r: seq<T>)
    ensures r == OfArea(rules, areaOf, area)
  {
    r := [];
    var p := 0;
    while p < |rules|
      invariant p <= |rules|
      invariant r + OfArea(rules[p..], areaOf, area) == OfArea(rules, areaOf, area)
    {
      assert rules[p..][1..] == rules[p + 1..];
      if areaOf(rules[p]) == area {
        r := r + [rules[p]];
      }
      p := p + 1;
    }
  }

  /// Backspace and Delete: first the rule just before the cursor, then the
  /// backward scan with its `signSkip` flag.
  method DeleteBack(rules: seq<CharRule>, placeholder: string, cells: seq<string>, cursor: int) returns (c: seq<string>, k: int)
    ensures (c, k) == Delete(rules, placeholder, cells, cursor)
  {
    c, k := cells, cursor;
    var p := 0;
    while p < |rules|
      invariant p <= |rules|
      invariant RuleAt(rules[p..], cursor - 1) == RuleAt(rules, cursor - 1)
    {
      assert rules[p..][1..] == rules[p + 1..];
      if cursor - 1 == rules[p].offset {
        c := JsSet(cells, rules[p].offset, PlaceholderCell(placeholder, rules[p].offset));
        k := cursor - 1;
        return;
      }
      p := p + 1;
    }
    var signSkip := false;
    var i := cursor - 1;
    while i >= 0
      invariant DeleteScan(rules, placeholder, cells, cursor, i, signSkip) == Delete(rules, placeholder, cells, cursor)
      decreases i + 1
    {
      if i < |placeholder| && IsSlot(placeholder[i]) {
        var signRule := FindSignRule(rules, i);
        signSkip := signSkip || signRule;
        if !signSkip {
          c := JsSet(cells, i, [placeholder[i]]);
          k := i;
          return;
        }
      }
      i := i - 1;
    }
  }

  /// The inner loop of the backward scan: does a sign rule govern `i`?
  method FindSignRule(rules: seq<CharRule>, i: int) returns (found: bool)
    ensures found == SignAt(rules, i)
  {
    var q := 0;
    while q < |rules|
      invariant q <= |rules|
      invariant !SignAt(rules[..q], i)
    {
      assert rules[..q + 1] == rules[..q] + [rules[q]];
      if rules[q].offset == i && rules[q].sign {
        assert rules[q] in rules;
        return true;
      }
      q := q + 1;
    }
    assert rules[..q] == rules;
    return false;
  }

  /// "+" or "-": every rule listing the key receives it.
  method WriteSign(rules: seq<CharRule>, key: string, st: KeyState) returns (r: KeyState)
    ensures r == SignWrite(rules, key, 0, st)
  {
    r := st;
    var p := 0;
    while p < |rules|
      invariant p <= |rules|
      invariant SignWrite(rules, key, p, r) == SignWrite(rules, key, 0, st)
    {
      if Lists(rules[p].keys, key) {
        r := r.(cells := JsSet(r.cells, rules[p].offset, key), signField := rules[p].sign, applied := true);
      }
      p := p + 1;
    }
  }

  /// "+" or "-": the sign rules that do not list the key take its letter.
  method PropagateSign(rules: seq<CharRule>, key: string, cells: seq<string>) returns (r: seq<string>)
    ensures r == SignPropagate(rules, key, 0, cells)
  {
    r := cells;
    var p := 0;
    while p < |rules|
      invariant p <= |rules|
      invariant SignPropagate(rules, key, p, r) == SignPropagate(rules, key, 0, cells)
    {
      var h := Hemisphere(rules[p].keys, key);
      if rules[p].sign && !Lists(rules[p].keys, key) && h.Some? {
        r := JsSet(r, rules[p].offset, h.value);
      }
      p := p + 1;
    }
  }

  /// Any other key against the rules in table order; `None` is the
  /// `ignoreKeysExit` return.
  method ApplyRules(rules: seq<CharRule>, key: string, st: KeyState) returns (r: Option<KeyState>)
    ensures r == RuleKey(rules, key, 0, st)
  {
    var s := st;
    var p := 0;
    while p < |rules|
      invariant p <= |rules|
      invariant RuleKey(rules, key, p, s) == RuleKey(rules, key, 0, st)
    {
      var rule := rules[p];
      if s.cursor == rule.offset && !Lists(rule.keys, key) && IsDigitKey(key) && !rule.sign {
        return None;
      } else if Lists(rule.keys, key) {
        if rule.sign {
          s := s.(cells := JsSet(s.cells, rule.offset, Written(rule, key)), signField := true, applied := true);
        } else {
          if s.cursor == rule.offset && Lists(rule.ignoreKeys, key) {
            return None;
          }
          if s.cursor == rule.offset {
            return Some(s.(cells := JsSet(s.cells, rule.offset, Written(rule, key)), applied := true, cursor := s.cursor + 1));
          }
        }
      }
      p := p + 1;
    }
    return Some(s);
  }

  /// After a sign letter: the rules that accept the matching symbol take it.
  method ReconcileSigns(rules: seq<CharRule>, key: string, cells: seq<string>) returns (r: seq<string>)
    ensures r == Reconcile(rules, key, 0, cells)
  {
    r := cells;
    var p := 0;
    while p < |rules|
      invariant p <= |rules|
      invariant Reconcile(rules, key, p, r) == Reconcile(rules, key, 0, cells)
    {
      var keys := rules[p].keys;
      if Lists(keys, key) {
      } else if key in ["S", "s", "W", "w"] {
        if '-' in keys {
          r := JsSet(r, rules[p].offset, "-");
        }
      } else if key in ["N", "n", "E", "e"] {
        if '+' in keys {
          r := JsSet(r, rules[p].offset, "+");
        }
      }
      p := p + 1;
    }
  }

  /// The delimiter-key scan: collect the digits and count the `d`s up to a
  /// delimiter character, then zero-fill and shift the collected digits in.
  method ConsolidateDigits(cells: seq<string>, keys: seq<char>, cursor: int) returns (c: seq<string>, k: int)
    ensures (c, k) == ConsolidateScan(cells, keys, 0, NoRun, cursor)
  {
    var start, end, count, shift := -1, -1, 0, [];
    var i := 0;
    while i < |cells|
      invariant i <= |cells| && RunWithin(Run(start, end, count, shift), i)
      invariant ConsolidateScan(cells, keys, i, Run(start, end, count, shift), cursor)
             == ConsolidateScan(cells, keys, 0, NoRun, cursor)
    {
      if IsDigitKey(cells[i]) {
        if start == -1 {
          start := i;
        }
        shift := shift + [cells[i]];
      } else if cells[i] == "d" {
        end := i;
        count := count + 1;
      } else if Lists(keys, cells[i]) {
        if start == -1 || end == -1 {
          start, count, shift := -1, 0, [];
        } else {
          var zeroTo := count + start - 1;
          c, k := cells, cursor;
          var j, o := start, 0;
          while j <= end
            invariant 0 <= j && |c| == |cells|
            invariant Justify(c, j, end, zeroTo, shift, o, k) == Justify(cells, start, end, zeroTo, shift, 0, cursor)
            decreases end - j + 1
          {
            if j <= zeroTo {
              c := c[j := "0"];
              k := k + 1;
            } else {
              c := c[j := if o < |shift| then shift[o] else ""];
              o := o + 1;
            }
            j := j + 1;
          }
          return;
        }
      }
      i := i + 1;
    }
    c, k := cells, cursor;
  }

  /// The value and length rules in table order; the first that does not pass
  /// ends the loop.
  method ValidateRules(rules: seq<ValueRule>, cells: seq<string>, cursor: int) returns (v: Verdict)
    ensures v == Validate(rules, cells, cursor, 0)
  {
    var p := 0;
    while p < |rules|
      invariant p <= |rules|
      invariant Validate(rules, cells, cursor, p) == Validate(rules, cells, cursor, 0)
    {
      var check := Check(rules[p], cells, cursor);
      if !check.Pass? {
        return check;
      }
      p := p + 1;
    }
    return Pass;
  }

  /// The rule stage of a typed key: the two sign passes for "+" and "-",
  /// the rule loop and the sign reconciliation for any other key.
  method ApplyKey(rules: seq<CharRule>, key: string, st: KeyState) returns (r: Option<KeyState>)
    ensures r == if key == "-" || key == "+" then Some(SignKey(rules, key, st)) else OtherKey(rules, key, st)
  {
    if key == "-" || key == "+" {
      var w := WriteSign(rules, key, st);
      if w.signField {
        var c := PropagateSign(rules, key, w.cells);
        w := w.(cells := c);
      }
      return Some(w);
    }
    r := ApplyRules(rules, key, st);
    if r.Some? && r.value.signField {
      var c := ReconcileSigns(rules, key, r.value.cells);
      r := Some(r.value.(cells := c));
    }
  }

  /// The auto-advance loop over literal placeholder positions.
  method SkipLiterals(placeholder: string, cursor: int) returns (k: int)
    ensures k == Advance(placeholder, cursor)
  {
    k := cursor;
    while k < |placeholder| && !(0 <= k && IsInputSlot(placeholder[k]))
      invariant Advance(placeholder, k) == Advance(placeholder, cursor)
      decreases |placeholder| - k
    {
      k := k + 1;
    }
  }

  /// Every key but Enter, Backspace, Delete and the ignored ones: the rule
  /// stage, the numeric fast path, consolidation, validation and the
  /// auto-advance loop.
  method TypeKey(t: Tables, placeholder: string, area: nat, cells: seq<string>, cursor: int, error: string, key: string)
    returns (o: Outcome)
    ensures o == TypedKey(t, placeholder, area, cells, cursor, error, key)
  {
    var rules := CollectArea(t.valuesRange, CharArea, area);
    var keyed := ApplyKey(rules, key, KeyState(cells, cursor, false, false));
    if keyed.None? {
      return Swallowed;
    }
    var st := keyed.value;
    var c, k := st.cells, st.cursor;
    if !st.applied && ErrorAllowsDigits(error) && IsDigitKey(key) {
      var index := IndexOf(c, "d");
      if index != -1 {
        c := c[index := key];
        k := k + 1;
      }
    }
    ghost var fast := FastPath(st, error, key);
    assert c == fast.cells && k == fast.cursor;
    if area in t.delimiterRange && Lists(t.delimiterRange[area], key) {
      c, k := ConsolidateDigits(c, t.delimiterRange[area], k);
    }
    assert (c, k) == Consolidate(t.delimiterRange, area, key, fast.cells, fast.cursor);
    var valueRules := CollectArea(t.maxValueRange, ValueArea, area);
    var verdict := ValidateRules(valueRules, c, k);
    if verdict.Throw? {
      return Raised(k);
    }
    var message := if verdict.Fail? then verdict.message else "";
    k := SkipLiterals(placeholder, k);
    o := Committed(c, k, message);
  }
}
