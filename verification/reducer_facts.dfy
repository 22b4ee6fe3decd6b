/// What one key does, proved about the functions of key_reducer.dfy: keys
/// that are refused change nothing, Backspace restores at most one position,
/// a sign key realigns the sign group, a digit nobody takes fills the first
/// `d`, a delimiter key right-justifies a run of digits, validation reports
/// the first failing rule, and only the active area is touched.
module ReducerFacts {
  import opened JsText
  import opened MaskRules
  import opened KeyReducer

  // ---------------------------------------------------------------------------
  // keys that change nothing

  /// A key listed by the area's `![...]` rule changes nothing at all.
  lemma IgnoredKeyNoOp(t: Tables, placeholders: seq<string>, w: Widget, key: string)
    requires w.area < |w.values| && w.area < |placeholders|
    requires w.area in t.ignoreRange && Lists(t.ignoreRange[w.area], key)
    ensures KeyStep(t, placeholders, w, key) == w
  {
  }

  /// Enter changes nothing.
  lemma EnterNoOp(t: Tables, placeholders: seq<string>, w: Widget)
    requires w.area < |w.values| && w.area < |placeholders|
    ensures KeyStep(t, placeholders, w, "Enter") == w
  {
  }

  /// A non-sign rule refuses a key when the key is a digit it does not list,
  /// or when the key is among its ignore keys.
  predicate Refuses(r: CharRule, key: string)
  {
    !r.sign && ((IsDigitKey(key) && !Lists(r.keys, key)) || (Lists(r.keys, key) && Lists(r.ignoreKeys, key)))
  }

  lemma {:induction false} RuleKeyRefused(rules: seq<CharRule>, key: string, p: nat, st: KeyState, r: CharRule)
    requires p <= |rules|
    requires RuleAt(rules[p..], st.cursor) == Some(r) && Refuses(r, key)
    ensures RuleKey(rules, key, p, st) == None
    decreases |rules| - p
  {
    assert rules[p..] != [];
    if rules[p].offset != st.cursor {
      assert rules[p..][1..] == rules[p + 1..];
      var q := rules[p];
      if Lists(q.keys, key) && q.sign {
        RuleKeyRefused(rules, key, p + 1, st.(cells := JsSet(st.cells, q.offset, Written(q, key)), signField := true, applied := true), r);
      } else {
        RuleKeyRefused(rules, key, p + 1, st, r);
      }
    }
  }

  /// When the first rule of the area at the cursor refuses the key, the key
  /// changes nothing: no cell, not the cursor, not the error.
  lemma RefusedKeyNoOp(t: Tables, placeholders: seq<string>, w: Widget, key: string, r: CharRule)
    requires w.area < |w.values| && w.area < |placeholders|
    requires key != "-" && key != "+"
    requires RuleAt(AreaRules(t.valuesRange, w.area), w.cursor) == Some(r) && Refuses(r, key)
    ensures KeyStep(t, placeholders, w, key) == w
  {
    var rules := AreaRules(t.valuesRange, w.area);
    assert rules[0..] == rules;
    RuleKeyRefused(rules, key, 0, KeyState(Chars(w.values[w.area]), w.cursor, false, false), r);
  }

  // ---------------------------------------------------------------------------
  // Backspace and Delete

  /// The nearest editable placeholder position at or below `i`, or -1.
  function LastSlot(placeholder: string, i: int): (r: int)
    ensures r == -1 || 0 <= r <= i
    ensures r >= 0 ==> r < |placeholder| && IsSlot(placeholder[r])
    ensures forall x :: r < x <= i && 0 <= x < |placeholder| ==> !IsSlot(placeholder[x])
    decreases i + 1
  {
    if i < 0 then -1
    else if i < |placeholder| && IsSlot(placeholder[i]) then i
    else LastSlot(placeholder, i - 1)
  }

  lemma {:induction false} DeleteScanSkipping(rules: seq<CharRule>, placeholder: string, cells: seq<string>, cursor: int, i: int)
    ensures DeleteScan(rules, placeholder, cells, cursor, i, true) == (cells, cursor)
    decreases i + 1
  {
    if i >= 0 {
      DeleteScanSkipping(rules, placeholder, cells, cursor, i - 1);
    }
  }

  /// Only the nearest editable position below the cursor is ever considered:
  /// it is restored unless a sign rule governs it, and in that case the scan
  /// goes on without restoring anything, because its skip flag is never
  /// cleared.
  lemma {:induction false} DeleteScanOutcome(rules: seq<CharRule>, placeholder: string, cells: seq<string>, cursor: int, i: int)
    ensures var j := LastSlot(placeholder, i);
      DeleteScan(rules, placeholder, cells, cursor, i, false)
      == if j >= 0 && !SignAt(rules, j) then (JsSet(cells, j, [placeholder[j]]), j) else (cells, cursor)
    decreases i + 1
  {
    if i >= 0 {
      if i < |placeholder| && IsSlot(placeholder[i]) {
        if SignAt(rules, i) {
          DeleteScanSkipping(rules, placeholder, cells, cursor, i - 1);
        }
      } else {
        DeleteScanOutcome(rules, placeholder, cells, cursor, i - 1);
      }
    }
  }

  /// Backspace or Delete: the cursor never moves forward; at most one position
  /// changes, the one the cursor lands on, and it gets its placeholder
  /// character back; when a rule governs the position before the cursor, that
  /// is the one, and the cursor drops by exactly one.
  lemma DeleteBounds(rules: seq<CharRule>, placeholder: string, cells: seq<string>, cursor: int)
    ensures var (c, k) := Delete(rules, placeholder, cells, cursor);
      k <= cursor
      && (c == cells || (0 <= k && c == JsSet(cells, k, PlaceholderCell(placeholder, k))))
      && (RuleAt(rules, cursor - 1).Some? ==>
            (c, k) == (JsSet(cells, cursor - 1, PlaceholderCell(placeholder, cursor - 1)), cursor - 1))
      && (RuleAt(rules, cursor - 1).None? ==>
            var j := LastSlot(placeholder, cursor - 1);
            (c, k) == if j >= 0 && !SignAt(rules, j) then (JsSet(cells, j, [placeholder[j]]), j) else (cells, cursor))
  {
    if RuleAt(rules, cursor - 1).None? {
      DeleteScanOutcome(rules, placeholder, cells, cursor, cursor - 1);
    }
  }

  /// At the level of the whole helper, Backspace and Delete clear the error
  /// and leave the other areas alone.
  lemma DeleteKeyStep(t: Tables, placeholders: seq<string>, w: Widget, key: string)
    requires w.area < |w.values| && w.area < |placeholders|
    requires key == "Backspace" || key == "Delete"
    ensures var w' := KeyStep(t, placeholders, w, key);
      w'.error == "" && w'.cursor <= w.cursor && w'.area == w.area
      && |w'.values| == |w.values|
      && forall i :: 0 <= i < |w.values| && i != w.area ==> w'.values[i] == w.values[i]
  {
    DeleteBounds(AreaRules(t.valuesRange, w.area), placeholders[w.area], Chars(w.values[w.area]), w.cursor);
  }

  // ---------------------------------------------------------------------------
  // sign keys

  predicate DistinctOffsets(rules: seq<CharRule>)
  {
    forall a, b :: 0 <= a < b < |rules| ==> rules[a].offset != rules[b].offset
  }

  /// No rule from `p` on lists the key.
  predicate NoLister(rules: seq<CharRule>, key: string, p: nat)
  {
    forall q :: p <= q < |rules| ==> !Lists(rules[q].keys, key)
  }

  /// The last rule from `p` on that lists the key is a sign rule.
  predicate LastListerIsSign(rules: seq<CharRule>, key: string, p: nat)
  {
    exists q :: p <= q < |rules| && Lists(rules[q].keys, key) && rules[q].sign && NoLister(rules, key, q + 1)
  }

  lemma {:induction false} SignWriteSpec(rules: seq<CharRule>, key: string, p: nat, st: KeyState)
    requires p <= |rules|
    ensures var w := SignWrite(rules, key, p, st);
      w.cursor == st.cursor && |st.cells| <= |w.cells|
      && (forall q :: p <= q < |rules| && Lists(rules[q].keys, key) ==>
            rules[q].offset < |w.cells| && w.cells[rules[q].offset] == key)
      && (forall i :: 0 <= i < |st.cells| && (forall q :: p <= q < |rules| && Lists(rules[q].keys, key) ==> rules[q].offset != i) ==>
            w.cells[i] == st.cells[i])
      && (w.signField <==> LastListerIsSign(rules, key, p) || (st.signField && NoLister(rules, key, p)))
      && (w.applied <==> st.applied || !NoLister(rules, key, p))
    decreases |rules| - p
  {
    if p < |rules| {
      var r := rules[p];
      var next := if Lists(r.keys, key) then st.(cells := JsSet(st.cells, r.offset, key), signField := r.sign, applied := true) else st;
      SignWriteSpec(rules, key, p + 1, next);
      var w := SignWrite(rules, key, p, st);
      assert w == SignWrite(rules, key, p + 1, next);
      if Lists(r.keys, key) {
        if !(exists q :: p + 1 <= q < |rules| && Lists(rules[q].keys, key) && rules[q].offset == r.offset) {
          assert w.cells[r.offset] == next.cells[r.offset];
        }
      }
      if w.signField {
        if !NoLister(rules, key, p + 1) {
          assert LastListerIsSign(rules, key, p + 1);
          var q :| p + 1 <= q < |rules| && Lists(rules[q].keys, key) && rules[q].sign && NoLister(rules, key, q + 1);
          assert LastListerIsSign(rules, key, p);
        } else if Lists(r.keys, key) {
          assert LastListerIsSign(rules, key, p);
        }
      }
    }
  }

  /// A sign rule that does not list the key but has a letter for it.
  predicate TakesLetter(r: CharRule, key: string)
  {
    r.sign && !Lists(r.keys, key) && Hemisphere(r.keys, key).Some?
  }

  lemma {:induction false} SignPropagateSpec(rules: seq<CharRule>, key: string, p: nat, cells: seq<string>)
    requires p <= |rules| && DistinctOffsets(rules)
    ensures var c := SignPropagate(rules, key, p, cells);
      |cells| <= |c|
      && (forall q :: p <= q < |rules| && TakesLetter(rules[q], key) ==>
            rules[q].offset < |c| && c[rules[q].offset] == Hemisphere(rules[q].keys, key).value)
      && (forall i :: 0 <= i < |cells| && (forall q :: p <= q < |rules| && TakesLetter(rules[q], key) ==> rules[q].offset != i) ==>
            c[i] == cells[i])
    decreases |rules| - p
  {
    if p < |rules| {
      var r := rules[p];
      var h := Hemisphere(r.keys, key);
      var next := if r.sign && !Lists(r.keys, key) && h.Some? then JsSet(cells, r.offset, h.value) else cells;
      SignPropagateSpec(rules, key, p + 1, next);
      assert SignPropagate(rules, key, p, cells) == SignPropagate(rules, key, p + 1, next);
    }
  }

  /// "+" or "-": every rule of the area listing the key receives it; when the
  /// last of them is a sign rule, every sign rule that does not list the key
  /// takes the matching letter (S or W for "-", N or E for "+"); nothing else
  /// changes and the cursor stays where it is.
  lemma SignKeyRealigns(rules: seq<CharRule>, key: string, st: KeyState)
    requires key == "-" || key == "+"
    requires DistinctOffsets(rules) && !st.signField
    ensures var w := SignKey(rules, key, st);
      w.cursor == st.cursor && |st.cells| <= |w.cells|
      && (forall q :: 0 <= q < |rules| && Lists(rules[q].keys, key) ==>
            rules[q].offset < |w.cells| && w.cells[rules[q].offset] == key)
      && (LastListerIsSign(rules, key, 0) ==>
            forall q :: 0 <= q < |rules| && TakesLetter(rules[q], key) ==>
              rules[q].offset < |w.cells| && w.cells[rules[q].offset] == Hemisphere(rules[q].keys, key).value)
      && (forall i :: 0 <= i < |st.cells| && (forall q :: 0 <= q < |rules| ==> rules[q].offset != i) ==> w.cells[i] == st.cells[i])
  {
    SignWriteSpec(rules, key, 0, st);
    var w := SignWrite(rules, key, 0, st);
    if w.signField {
      SignPropagateSpec(rules, key, 0, w.cells);
      var c := SignPropagate(rules, key, 0, w.cells);
      forall q | 0 <= q < |rules| && Lists(rules[q].keys, key)
        ensures c[rules[q].offset] == key
      {
        forall q' | 0 <= q' < |rules| && TakesLetter(rules[q'], key)
          ensures rules[q'].offset != rules[q].offset
        {
          assert q' != q;
        }
      }
    }
  }

  // ---------------------------------------------------------------------------
  // other keys

  /// A non-sign rule at the cursor that lists the key (and does not ignore
  /// it) writes it there and moves the cursor on, provided no sign rule lists
  /// the key.
  lemma {:induction false} RuleKeyWritesAtCursor(rules: seq<CharRule>, key: string, p: nat, st: KeyState, r: CharRule)
    requires p <= |rules|
    requires RuleAt(rules[p..], st.cursor) == Some(r) && !r.sign && Lists(r.keys, key) && !Lists(r.ignoreKeys, key)
    requires forall q :: p <= q < |rules| && rules[q].sign ==> !Lists(rules[q].keys, key)
    ensures RuleKey(rules, key, p, st) == Some(st.(cells := JsSet(st.cells, r.offset, Written(r, key)), applied := true, cursor := st.cursor + 1))
    decreases |rules| - p
  {
    assert rules[p..] != [];
    if rules[p].offset != st.cursor {
      assert rules[p..][1..] == rules[p + 1..];
      RuleKeyWritesAtCursor(rules, key, p + 1, st, r);
    }
  }

  /// With no rule at the cursor and no sign rule listing the key, the rules
  /// leave the key to the numeric fast path.
  lemma {:induction false} RuleKeyPassesOn(rules: seq<CharRule>, key: string, p: nat, st: KeyState)
    requires p <= |rules|
    requires forall q :: p <= q < |rules| ==> rules[q].offset != st.cursor
    requires forall q :: p <= q < |rules| && rules[q].sign ==> !Lists(rules[q].keys, key)
    ensures RuleKey(rules, key, p, st) == Some(st)
    decreases |rules| - p
  {
    if p < |rules| {
      RuleKeyPassesOn(rules, key, p + 1, st);
    }
  }

  /// A rule that does not list a sign letter receives "-" (for S, W) or "+"
  /// (for N, E) when it lists that symbol.
  function Counterpart(r: CharRule, key: string): Option<string>
  {
    if Lists(r.keys, key) then None
    else if key in ["S", "s", "W", "w"] && '-' in r.keys then Some("-")
    else if key in ["N", "n", "E", "e"] && '+' in r.keys then Some("+")
    else None
  }

  lemma {:induction false} ReconcileSpec(rules: seq<CharRule>, key: string, p: nat, cells: seq<string>)
    requires p <= |rules| && DistinctOffsets(rules)
    ensures var c := Reconcile(rules, key, p, cells);
      |cells| <= |c|
      && (forall q :: p <= q < |rules| && Counterpart(rules[q], key).Some? ==>
            rules[q].offset < |c| && c[rules[q].offset] == Counterpart(rules[q], key).value)
      && (forall i :: 0 <= i < |cells| && (forall q :: p <= q < |rules| && Counterpart(rules[q], key).Some? ==> rules[q].offset != i) ==>
            c[i] == cells[i])
    decreases |rules| - p
  {
    if p < |rules| {
      var r := rules[p];
      var next :=
        if Lists(r.keys, key) then cells
        else if key in ["S", "s", "W", "w"] then (if '-' in r.keys then JsSet(cells, r.offset, "-") else cells)
        else if key in ["N", "n", "E", "e"] then (if '+' in r.keys then JsSet(cells, r.offset, "+") else cells)
        else cells;
      ReconcileSpec(rules, key, p + 1, next);
      assert Reconcile(rules, key, p, cells) == Reconcile(rules, key, p + 1, next);
    }
  }

  // ---------------------------------------------------------------------------
  // the numeric fast path

  /// A digit that no rule applied fills the first `d` and moves the cursor on.
  lemma FastPathFillsFirstSlot(st: KeyState, error: string, key: string)
    requires !st.applied && ErrorAllowsDigits(error) && IsDigitKey(key) && "d" in st.cells
    ensures var r := FastPath(st, error, key);
      exists i :: 0 <= i < |st.cells| && st.cells[i] == "d" && "d" !in st.cells[..i]
        && r.cells == st.cells[i := key] && r.cursor == st.cursor + 1 && r.applied
  {
    var i := IndexOf(st.cells, "d");
    assert 0 <= i < |st.cells| && st.cells[i] == "d" && "d" !in st.cells[..i];
  }

  /// A pending value error stops the fast path; a pending length error does
  /// not.
  lemma ErrorKindsAndFastPath(st: KeyState, sp: Span, key: string)
    ensures FastPath(st, ValueMessage(sp), key) == st
    ensures ErrorAllowsDigits(LengthMessage(sp))
  {
    var m := ValueMessage(sp);
    assert m[6] == 'v' && "error length;"[6] == 'l';
    var l := LengthMessage(sp);
    assert l[..13] == "error length;";
  }

  // ---------------------------------------------------------------------------
  // consolidation

  /// A collected digit, or `undefined` (the empty string) once they run out.
  function ShiftAt(shift: seq<string>, o: int): string
  {
    if 0 <= o < |shift| then shift[o] else ""
  }

  /// How many of the positions `j..end` are at or below `zeroTo`.
  function ZeroCount(j: int, end: int, zeroTo: int): nat
  {
    var top := if end < zeroTo then end else zeroTo;
    if top >= j then top - j + 1 else 0
  }

  /// The right-justification in closed form: within `j..end`, the positions up
  /// to `zeroTo` hold "0" and the following ones the collected digits in
  /// order; the cursor moves on once per zero.
  lemma {:induction false} JustifySpec(cells: seq<string>, j: int, end: int, zeroTo: int, shift: seq<string>, o: nat, cursor: int)
    requires 0 <= j && end < |cells|
    requires o == if j <= zeroTo then 0 else j - zeroTo - 1
    ensures var r := Justify(cells, j, end, zeroTo, shift, o, cursor);
      |r.0| == |cells|
      && (forall p :: 0 <= p < |cells| ==>
            r.0[p] == if j <= p <= end then (if p <= zeroTo then "0" else ShiftAt(shift, p - zeroTo - 1)) else cells[p])
      && r.1 == cursor + ZeroCount(j, end, zeroTo)
    decreases end - j + 1
  {
    if j <= end {
      if j <= zeroTo {
        JustifySpec(cells[j := "0"], j + 1, end, zeroTo, shift, o, cursor + 1);
      } else {
        JustifySpec(cells[j := ShiftAt(shift, o)], j + 1, end, zeroTo, shift, o + 1, cursor);
      }
    }
  }

  lemma {:induction false} ScanNoRun(cells: seq<string>, keys: seq<char>, i: nat, n: nat, cursor: int)
    requires i <= n <= |cells|
    requires forall x :: i <= x < n ==> !IsDigitKey(cells[x]) && cells[x] != "d"
    ensures ConsolidateScan(cells, keys, i, NoRun, cursor) == ConsolidateScan(cells, keys, n, NoRun, cursor)
    decreases n - i
  {
    if i < n {
      ScanNoRun(cells, keys, i + 1, n, cursor);
    }
  }

  lemma {:induction false} ScanDigitRun(cells: seq<string>, keys: seq<char>, s: nat, i: nat, n: nat, cursor: int)
    requires s < i <= n <= |cells|
    requires forall x :: s <= x < n ==> IsDigitKey(cells[x])
    ensures ConsolidateScan(cells, keys, i, Run(s, -1, 0, cells[s..i]), cursor)
         == ConsolidateScan(cells, keys, n, Run(s, -1, 0, cells[s..n]), cursor)
    decreases n - i
  {
    if i < n {
      assert cells[s..i] + [cells[i]] == cells[s..i + 1];
      ScanDigitRun(cells, keys, s, i + 1, n, cursor);
    }
  }

  lemma {:induction false} ScanSlotRun(cells: seq<string>, keys: seq<char>, s: nat, b: nat, i: nat, n: nat, shift: seq<string>, cursor: int)
    requires s < b < i <= n <= |cells|
    requires forall x :: b <= x < n ==> cells[x] == "d"
    ensures ConsolidateScan(cells, keys, i, Run(s, i - 1, i - b, shift), cursor)
         == ConsolidateScan(cells, keys, n, Run(s, n - 1, n - b, shift), cursor)
    decreases n - i
  {
    if i < n {
      ScanSlotRun(cells, keys, s, b, i + 1, n, shift, cursor);
    }
  }

  function Repeat(x: string, m: nat): (r: seq<string>)
    ensures |r| == m && forall i :: 0 <= i < m ==> r[i] == x
  {
    seq(m, _ => x)
  }

  /// While no `d` has been seen, the scan only collects digits, and a
  /// delimiter character drops them: it reaches the position after such a
  /// delimiter with nothing pending.
  lemma {:induction false} PrefixPending(cells: seq<string>, keys: seq<char>, i: nat, s: nat, run: Run, cursor: int)
    requires i < s <= |cells| && RunWithin(run, i) && run.end == -1 && run.count == 0
    requires forall x :: i <= x < s ==> cells[x] != "d"
    requires Lists(keys, cells[s - 1]) && !IsDigitKey(cells[s - 1])
    ensures ConsolidateScan(cells, keys, i, run, cursor) == ConsolidateScan(cells, keys, s, NoRun, cursor)
    decreases s - i
  {
    if IsDigitKey(cells[i]) {
      PrefixPending(cells, keys, i + 1, s, run.(start := if run.start == -1 then i else run.start, shift := run.shift + [cells[i]]), cursor);
    } else if Lists(keys, cells[i]) {
      if i + 1 < s {
        PrefixPending(cells, keys, i + 1, s, NoRun, cursor);
      }
    } else {
      PrefixPending(cells, keys, i + 1, s, run, cursor);
    }
  }

  /// A field before position `s` that holds no `d` and ends in a delimiter
  /// character is abandoned: the scan starts afresh at `s`.
  lemma PrefixAbandons(cells: seq<string>, keys: seq<char>, s: nat, cursor: int)
    requires s <= |cells|
    requires forall x :: 0 <= x < s ==> cells[x] != "d"
    requires s == 0 || (Lists(keys, cells[s - 1]) && !IsDigitKey(cells[s - 1]))
    ensures ConsolidateScan(cells, keys, 0, NoRun, cursor) == ConsolidateScan(cells, keys, s, NoRun, cursor)
  {
    if s > 0 {
      PrefixPending(cells, keys, 0, s, NoRun, cursor);
    }
  }

  /// The scan over a prefix with no `d` that is empty or ends in a delimiter
  /// character, then k digits, then m `d` slots, then a delimiter character,
  /// ends in the justification of that run.
  lemma ScanToDelimiter(cells: seq<string>, keys: seq<char>, s: nat, k: nat, m: nat, cursor: int)
    requires s + k + m < |cells| && k >= 1 && m >= 1
    requires forall x :: 0 <= x < s ==> cells[x] != "d"
    requires s == 0 || (Lists(keys, cells[s - 1]) && !IsDigitKey(cells[s - 1]))
    requires forall x :: s <= x < s + k ==> IsDigitKey(cells[x])
    requires forall x :: s + k <= x < s + k + m ==> cells[x] == "d"
    requires Lists(keys, cells[s + k + m]) && !IsDigitKey(cells[s + k + m]) && cells[s + k + m] != "d"
    ensures ConsolidateScan(cells, keys, 0, NoRun, cursor)
         == Justify(cells, s, s + k + m - 1, m + s - 1, cells[s..s + k], 0, cursor)
  {
    var e := s + k + m;
    PrefixAbandons(cells, keys, s, cursor);
    assert cells[s..s + 1] == [] + [cells[s]];
    assert ConsolidateScan(cells, keys, s, NoRun, cursor)
        == ConsolidateScan(cells, keys, s + 1, Run(s, -1, 0, cells[s..s + 1]), cursor);
    ScanDigitRun(cells, keys, s, s + 1, s + k, cursor);
    var digits := cells[s..s + k];
    assert ConsolidateScan(cells, keys, s + k, Run(s, -1, 0, digits), cursor)
        == ConsolidateScan(cells, keys, s + k + 1, Run(s, s + k, 1, digits), cursor);
    ScanSlotRun(cells, keys, s, s + k, s + k + 1, e, digits, cursor);
    assert ConsolidateScan(cells, keys, e, Run(s, e - 1, m, digits), cursor)
        == Justify(cells, s, e - 1, m + s - 1, digits, 0, cursor);
  }

  /// `cells` with the run of k digits at `s` moved m places right and the m
  /// positions it leaves filled with zeros.
  function Justified(cells: seq<string>, s: nat, k: nat, m: nat): (r: seq<string>)
    requires s + k + m <= |cells|
    ensures |r| == |cells|
  {
    seq(|cells|, p requires 0 <= p < |cells| =>
      if s <= p < s + m then "0" else if s + m <= p < s + k + m then cells[p - m] else cells[p])
  }

  /// A delimiter key right-justifies a run of k digits followed by m `d`
  /// slots that ends at a delimiter character: the run becomes m zeros then
  /// the k digits in their order, the cursor moves on by m, and nothing else
  /// changes. The run is the first field, or follows earlier fields that are
  /// complete (no `d`) and end in a delimiter character.
  lemma ConsolidateSpan(cells: seq<string>, keys: seq<char>, s: nat, k: nat, m: nat, cursor: int)
    requires s + k + m < |cells| && k >= 1 && m >= 1
    requires forall x :: 0 <= x < s ==> cells[x] != "d"
    requires s == 0 || (Lists(keys, cells[s - 1]) && !IsDigitKey(cells[s - 1]))
    requires forall x :: s <= x < s + k ==> IsDigitKey(cells[x])
    requires forall x :: s + k <= x < s + k + m ==> cells[x] == "d"
    requires Lists(keys, cells[s + k + m]) && !IsDigitKey(cells[s + k + m]) && cells[s + k + m] != "d"
    ensures ConsolidateScan(cells, keys, 0, NoRun, cursor) == (Justified(cells, s, k, m), cursor + m)
  {
    ScanToDelimiter(cells, keys, s, k, m, cursor);
    JustifyRun(cells, s, k, m, cursor);
  }

  /// Justifying a run of k digits and m slots at `s` gives `Justified`.
  lemma JustifyRun(cells: seq<string>, s: nat, k: nat, m: nat, cursor: int)
    requires s + k + m < |cells| && k >= 1 && m >= 1
    ensures Justify(cells, s, s + k + m - 1, m + s - 1, cells[s..s + k], 0, cursor) == (Justified(cells, s, k, m), cursor + m)
  {
    JustifySpec(cells, s, s + k + m - 1, m + s - 1, cells[s..s + k], 0, cursor);
    var r := Justify(cells, s, s + k + m - 1, m + s - 1, cells[s..s + k], 0, cursor);
    JustifiedCells(cells, s, k, m, r.0);
    assert ZeroCount(s, s + k + m - 1, m + s - 1) == m;
  }

  /// The closed form of `JustifySpec`, for a run of k digits and m slots at
  /// `s`, is `Justified`.
  lemma JustifiedCells(cells: seq<string>, s: nat, k: nat, m: nat, c: seq<string>)
    requires s + k + m < |cells| && |c| == |cells|
    requires forall p :: 0 <= p < |cells| ==>
      c[p] == if s <= p <= s + k + m - 1 then (if p <= m + s - 1 then "0" else ShiftAt(cells[s..s + k], p - (m + s - 1) - 1)) else cells[p]
    ensures c == Justified(cells, s, k, m)
  {
    var want := Justified(cells, s, k, m);
    forall p | 0 <= p < |cells|
      ensures c[p] == want[p]
    {
      if s + m <= p < s + k + m {
        assert ShiftAt(cells[s..s + k], p - (m + s - 1) - 1) == cells[p - m];
      }
    }
  }

  /// The same, stated on the pieces of the value.
  lemma ConsolidateRun(pre: seq<string>, digits: seq<string>, m: nat, delim: string, post: seq<string>, keys: seq<char>, cursor: int)
    requires forall c :: c in pre ==> c != "d"
    requires pre == [] || (Lists(keys, pre[|pre| - 1]) && !IsDigitKey(pre[|pre| - 1]))
    requires |digits| >= 1 && forall c :: c in digits ==> IsDigitKey(c)
    requires m >= 1 && Lists(keys, delim) && !IsDigitKey(delim) && delim != "d"
    ensures ConsolidateScan(pre + digits + Repeat("d", m) + [delim] + post, keys, 0, NoRun, cursor)
         == (pre + Repeat("0", m) + digits + [delim] + post, cursor + m)
  {
    var cells := pre + digits + Repeat("d", m) + [delim] + post;
    var s, k := |pre|, |digits|;
    assert forall x :: 0 <= x < s ==> cells[x] == pre[x] && pre[x] in pre;
    assert s > 0 ==> cells[s - 1] == pre[|pre| - 1];
    assert forall x :: s <= x < s + k ==> cells[x] == digits[x - s] && digits[x - s] in digits;
    assert forall x :: s + k <= x < s + k + m ==> cells[x] == "d";
    assert cells[s + k + m] == delim;
    ConsolidateSpan(cells, keys, s, k, m, cursor);
    var j := Justified(cells, s, k, m);
    var want := pre + Repeat("0", m) + digits + [delim] + post;
    forall p | 0 <= p < |want|
      ensures j[p] == want[p]
    {
      if p < s {
        assert want[p] == pre[p];
      } else if p < s + m {
        assert want[p] == Repeat("0", m)[p - s];
      } else if p < s + k + m {
        assert want[p] == digits[p - m - s];
      } else {
        assert want[p] == ([delim] + post)[p - s - k - m];
        assert cells[p] == ([delim] + post)[p - s - k - m];
      }
    }
    assert j == want;
  }

  /// A `d` slot before the digits stops the justification: "d5" followed by a
  /// delimiter stays as it is.
  lemma SlotBeforeDigitStays(cursor: int)
    ensures ConsolidateScan(["d", "5", " "], [' '], 0, NoRun, cursor) == (["d", "5", " "], cursor)
  {
    var cells := ["d", "5", " "];
    assert IsDigitKey(cells[1]) && Lists([' '], cells[2]);
    assert ConsolidateScan(cells, [' '], 0, NoRun, cursor) == ConsolidateScan(cells, [' '], 1, Run(-1, 0, 1, []), cursor);
    assert ConsolidateScan(cells, [' '], 1, Run(-1, 0, 1, []), cursor) == ConsolidateScan(cells, [' '], 2, Run(1, 0, 1, ["5"]), cursor);
  }

  /// Digits before a literal that is not a delimiter character are not
  /// dropped: "12°3d" followed by a space joins them to the next run, which
  /// overwrites the `°` and leaves one position empty.
  lemma MergesAcrossLiteral(cursor: int)
    ensures ConsolidateScan(["1", "2", "°", "3", "d", " "], [' '], 0, NoRun, cursor)
         == (["0", "1", "2", "3", "", " "], cursor + 1)
  {
    var cells := ["1", "2", "°", "3", "d", " "];
    var shift := ["1", "2", "3"];
    assert ConsolidateScan(cells, [' '], 0, NoRun, cursor) == ConsolidateScan(cells, [' '], 1, Run(0, -1, 0, ["1"]), cursor);
    assert ConsolidateScan(cells, [' '], 1, Run(0, -1, 0, ["1"]), cursor) == ConsolidateScan(cells, [' '], 2, Run(0, -1, 0, ["1", "2"]), cursor);
    assert ConsolidateScan(cells, [' '], 2, Run(0, -1, 0, ["1", "2"]), cursor) == ConsolidateScan(cells, [' '], 4, Run(0, -1, 0, shift), cursor);
    assert ConsolidateScan(cells, [' '], 4, Run(0, -1, 0, shift), cursor) == Justify(cells, 0, 4, 0, shift, 0, cursor);
    JustifySpec(cells, 0, 4, 0, shift, 0, cursor);
    var r := Justify(cells, 0, 4, 0, shift, 0, cursor);
    assert r.0 == ["0", "1", "2", "3", "", " "];
  }

  /// The position of the last `d` is never cleared: in "d 7 3d" followed by
  /// a space, the `d` of the first field is still remembered when the second
  /// space is reached, so the justification covers nothing and no run is
  /// right-justified.
  lemma StaleSlotStops(cursor: int)
    ensures ConsolidateScan(["d", " ", "7", " ", "3", "d", " "], [' '], 0, NoRun, cursor)
         == (["d", " ", "7", " ", "3", "d", " "], cursor)
  {
    var cells := ["d", " ", "7", " ", "3", "d", " "];
    assert ConsolidateScan(cells, [' '], 0, NoRun, cursor) == ConsolidateScan(cells, [' '], 1, Run(-1, 0, 1, []), cursor);
    assert ConsolidateScan(cells, [' '], 1, Run(-1, 0, 1, []), cursor) == ConsolidateScan(cells, [' '], 2, Run(-1, 0, 0, []), cursor);
    assert ConsolidateScan(cells, [' '], 2, Run(-1, 0, 0, []), cursor) == ConsolidateScan(cells, [' '], 3, Run(2, 0, 0, ["7"]), cursor);
  }

  // ---------------------------------------------------------------------------
  // validation

  /// Validation passes exactly when every rule passes, and otherwise reports
  /// the verdict of the first rule that does not.
  lemma {:induction false} ValidatePassBefore(rules: seq<ValueRule>, cells: seq<string>, cursor: int, p: nat)
    requires p <= |rules|
    ensures var v := Validate(rules, cells, cursor, p);
      (v == Pass <==> forall q :: p <= q < |rules| ==> Check(rules[q], cells, cursor) == Pass)
      && (v != Pass ==>
            exists q :: p <= q < |rules| && v == Check(rules[q], cells, cursor) && PassBefore(rules, cells, cursor, p, q))
    decreases |rules| - p
  {
    if p < |rules| {
      if Check(rules[p], cells, cursor) == Pass {
        ValidatePassBefore(rules, cells, cursor, p + 1);
        var v := Validate(rules, cells, cursor, p);
        assert v == Validate(rules, cells, cursor, p + 1);
        if v != Pass {
          var q :| p + 1 <= q < |rules| && v == Check(rules[q], cells, cursor) && PassBefore(rules, cells, cursor, p + 1, q);
          assert PassBefore(rules, cells, cursor, p, q);
        }
      } else {
        assert PassBefore(rules, cells, cursor, p, p);
      }
    }
  }

  /// Every rule from `p` up to (not including) `q` passes.
  predicate PassBefore(rules: seq<ValueRule>, cells: seq<string>, cursor: int, p: nat, q: nat)
    requires q <= |rules|
  {
    forall q' :: p <= q' < q ==> Check(rules[q'], cells, cursor) == Pass
  }

  /// A value rule is consulted only when the cursor equals its key, never
  /// complains while a `d` is left in its span, and a length rule only while
  /// the cursor is inside its window.
  lemma CheckTiming(rule: ValueRule, cells: seq<string>, cursor: int)
    requires rule.span.Some?
    ensures rule.bound.MaxValue? && (cursor != rule.index || "d" in SpanCells(cells, rule.span.value)) ==>
      Check(rule, cells, cursor) == Pass
    ensures !rule.bound.MaxValue? && !(rule.span.value.offset < cursor <= rule.index) ==>
      Check(rule, cells, cursor) == Pass
  {
  }

  /// On a span of digits, a value rule fails exactly when the number exceeds
  /// its maximum (the lower bound 0 can never be crossed).
  lemma ValueRuleOnDigits(rule: ValueRule, cells: seq<string>)
    requires rule.bound.MaxValue? && rule.span.Some?
    requires var stored := SpanCells(cells, rule.span.value);
      stored != [] && forall c :: c in stored ==> IsDigitKey(c)
    ensures var v := DigitsValue(Concat(SpanCells(cells, rule.span.value)), false);
      Check(rule, cells, rule.index)
      == if rule.bound.max.Some? && v > rule.bound.max.value then Fail(ValueMessage(rule.span.value)) else Pass
  {
    var stored := SpanCells(cells, rule.span.value);
    ConcatDigitCells(stored);
    ParseIntDigits(Concat(stored));
    assert "d" !in stored by {
      assert !IsDigitKey("d");
    }
  }

  /// A length rule with a `|` list fails exactly when the number of filled
  /// positions of its span, written in decimal, is not listed.
  lemma LengthRuleCounts(rule: ValueRule, cells: seq<string>, cursor: int)
    requires rule.bound.LengthList? && rule.span.Some?
    requires rule.span.value.offset < cursor <= rule.index
    ensures var filled := |RemoveD(Concat(SpanCells(cells, rule.span.value)))|;
      (Check(rule, cells, cursor) == Pass <==> IntToString(filled) in rule.bound.lengths)
      && (Check(rule, cells, cursor) != Pass ==> Check(rule, cells, cursor) == Fail(LengthMessage(rule.span.value)))
  {
  }

  // ---------------------------------------------------------------------------
  // what a key leaves alone

  /// Every rule of the area governs a position inside the value.
  predicate OffsetsWithin(rules: seq<CharRule>, n: nat)
  {
    forall r :: r in rules ==> r.offset < n
  }

  lemma {:induction false} SignWriteKeepsCount(rules: seq<CharRule>, key: string, p: nat, st: KeyState)
    requires p <= |rules| && OffsetsWithin(rules, |st.cells|)
    ensures |SignWrite(rules, key, p, st).cells| == |st.cells|
    decreases |rules| - p
  {
    if p < |rules| {
      var r := rules[p];
      assert r in rules;
      if Lists(r.keys, key) {
        SignWriteKeepsCount(rules, key, p + 1, st.(cells := JsSet(st.cells, r.offset, key), signField := r.sign, applied := true));
      } else {
        SignWriteKeepsCount(rules, key, p + 1, st);
      }
    }
  }

  lemma {:induction false} SignPropagateKeepsCount(rules: seq<CharRule>, key: string, p: nat, cells: seq<string>)
    requires p <= |rules| && OffsetsWithin(rules, |cells|)
    ensures |SignPropagate(rules, key, p, cells)| == |cells|
    decreases |rules| - p
  {
    if p < |rules| {
      var r := rules[p];
      assert r in rules;
      var h := Hemisphere(r.keys, key);
      SignPropagateKeepsCount(rules, key, p + 1, if r.sign && !Lists(r.keys, key) && h.Some? then JsSet(cells, r.offset, h.value) else cells);
    }
  }

  lemma {:induction false} RuleKeyKeepsCount(rules: seq<CharRule>, key: string, p: nat, st: KeyState)
    requires p <= |rules| && OffsetsWithin(rules, |st.cells|)
    ensures RuleKey(rules, key, p, st).Some? ==> |RuleKey(rules, key, p, st).value.cells| == |st.cells|
    decreases |rules| - p
  {
    if p < |rules| {
      var r := rules[p];
      assert r in rules;
      if !(st.cursor == r.offset && !Lists(r.keys, key) && IsDigitKey(key) && !r.sign) && Lists(r.keys, key) && r.sign {
        RuleKeyKeepsCount(rules, key, p + 1, st.(cells := JsSet(st.cells, r.offset, Written(r, key)), signField := true, applied := true));
      } else {
        RuleKeyKeepsCount(rules, key, p + 1, st);
      }
    }
  }

  lemma {:induction false} ReconcileKeepsCount(rules: seq<CharRule>, key: string, p: nat, cells: seq<string>)
    requires p <= |rules| && OffsetsWithin(rules, |cells|)
    ensures |Reconcile(rules, key, p, cells)| == |cells|
    decreases |rules| - p
  {
    if p < |rules| {
      var r := rules[p];
      assert r in rules;
      var next :=
        if Lists(r.keys, key) then cells
        else if key in ["S", "s", "W", "w"] then (if '-' in r.keys then JsSet(cells, r.offset, "-") else cells)
        else if key in ["N", "n", "E", "e"] then (if '+' in r.keys then JsSet(cells, r.offset, "+") else cells)
        else cells;
      ReconcileKeepsCount(rules, key, p + 1, next);
    }
  }

  /// When every rule of the area governs a position inside the value, a key
  /// that is not a deletion keeps the number of positions of the value.
  lemma TypedKeyKeepsCount(t: Tables, placeholder: string, area: nat, cells: seq<string>, cursor: int, error: string, key: string)
    requires forall r :: r in t.valuesRange && r.area == area ==> r.offset < |cells|
    ensures var o := TypedKey(t, placeholder, area, cells, cursor, error, key);
      o.Committed? ==> |o.cells| == |cells|
  {
    var rules := AreaRules(t.valuesRange, area);
    var start := KeyState(cells, cursor, false, false);
    if key == "-" || key == "+" {
      SignWriteKeepsCount(rules, key, 0, start);
      SignPropagateKeepsCount(rules, key, 0, SignWrite(rules, key, 0, start).cells);
    } else {
      RuleKeyKeepsCount(rules, key, 0, start);
      var a := RuleKey(rules, key, 0, start);
      if a.Some? {
        ReconcileKeepsCount(rules, key, 0, a.value.cells);
      }
    }
  }

  /// A key changes at most the value of the active area; the other areas and
  /// the choice of area stay as they were.
  lemma KeyStepIsolation(t: Tables, placeholders: seq<string>, w: Widget, key: string)
    requires w.area < |w.values| && w.area < |placeholders|
    ensures var w' := KeyStep(t, placeholders, w, key);
      w'.area == w.area && |w'.values| == |w.values|
      && forall i :: 0 <= i < |w.values| && i != w.area ==> w'.values[i] == w.values[i]
  {
  }

  /// Auto-advance lands on a position it would not move from.
  lemma AdvanceIdempotent(placeholder: string, cursor: int)
    ensures Advance(placeholder, Advance(placeholder, cursor)) == Advance(placeholder, cursor)
  {
  }

  /// A position that is neither a digit nor `d` inside the run leaves a
  /// position with no collected digit: "5_d" before a space becomes "05", an
  /// `undefined` cell, and the space, so the text loses a character.
  lemma ShortShiftEmptiesCell(cursor: int)
    ensures ConsolidateScan(["5", "_", "d", " "], [' '], 0, NoRun, cursor) == (["0", "5", "", " "], cursor + 1)
  {
    var cells := ["5", "_", "d", " "];
    assert IsDigitKey(cells[0]) && !Lists([' '], cells[1]) && Lists([' '], cells[3]);
    assert ConsolidateScan(cells, [' '], 0, NoRun, cursor) == ConsolidateScan(cells, [' '], 1, Run(0, -1, 0, ["5"]), cursor);
    assert ConsolidateScan(cells, [' '], 1, Run(0, -1, 0, ["5"]), cursor) == ConsolidateScan(cells, [' '], 3, Run(0, 2, 1, ["5"]), cursor);
    assert ConsolidateScan(cells, [' '], 3, Run(0, 2, 1, ["5"]), cursor) == Justify(cells, 0, 2, 0, ["5"], 0, cursor);
    JustifySpec(cells, 0, 2, 0, ["5"], 0, cursor);
    var r := Justify(cells, 0, 2, 0, ["5"], 0, cursor);
    assert r.0[0] == "0" && r.0[1] == "5" && r.0[2] == "" && r.0[3] == " ";
    assert r.0 == ["0", "5", "", " "];
  }

  /// In an area without rules, a digit (with no value error pending) fills
  /// the first `d` of the value, clears the error, and the cursor moves on
  /// by one and then over literal placeholder positions.
  lemma RulelessDigit(t: Tables, placeholder: string, area: nat, cells: seq<string>, cursor: int, error: string, key: string)
    requires AreaRules(t.valuesRange, area) == [] && OfArea(t.maxValueRange, ValueArea, area) == []
    requires area !in t.delimiterRange && area !in t.ignoreRange
    requires IsDigitKey(key) && ErrorAllowsDigits(error) && "d" in cells
    ensures Reduce(t, placeholder, area, cells, cursor, error, key)
         == Committed(cells[IndexOf(cells, "d") := key], Advance(placeholder, cursor + 1), "")
  {
    var st := KeyState(cells, cursor, false, false);
    assert OtherKey([], key, st) == Some(st);
  }
}
