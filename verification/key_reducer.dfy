/// What `processKeyInput` does with one key, stated as functions over the
/// split value of the active area (`cells`), the shared cursor and the error
/// string. Each stage is one loop of the handler; the class in
/// gis_mask_helper.dfy runs the loops and is proved to agree with `KeyStep`.
module KeyReducer {
  import opened JsText
  import opened MaskRules

  /// A rule table restricted to one area, in table order (`valuesRange` and
  /// `maxValueRange` are filtered the same way); `areaOf` reads a rule's area.
  function OfArea<T(==,!new)>(rules: seq<T>, areaOf: T -> nat, area: nat): (r: seq<T>)
    ensures forall x :: x in r <==> x in rules && areaOf(x) == area
  {
    if rules == [] then []
    else (if areaOf(rules[0]) == area then [rules[0]] else []) + OfArea(rules[1..], areaOf, area)
  }

  function CharArea(rule: CharRule): nat { rule.area }

  function ValueArea(rule: ValueRule): nat { rule.area }

  /// The character rules of one area.
  function AreaRules(rules: seq<CharRule>, area: nat): seq<CharRule>
  {
    OfArea(rules, CharArea, area)
  }

  // ---------------------------------------------------------------------------
  // Backspace and Delete

  /// `placeholder[i]` as it lands in the value array (`undefined` past the end).
  function PlaceholderCell(placeholder: string, i: int): string
  {
    if 0 <= i < |placeholder| then [placeholder[i]] else ""
  }

  /// A placeholder character that marks an editable position.
  predicate IsSlot(c: char) { c == '?' || c == '_' || c == 'd' }

  /// The first rule, in table order, governing offset `o`.
  function RuleAt(rules: seq<CharRule>, o: int): (r: Option<CharRule>)
    ensures r.Some? ==> r.value in rules && r.value.offset == o
    ensures r.None? ==> forall x :: x in rules ==> x.offset != o
  {
    if rules == [] then None
    else if rules[0].offset == o then Some(rules[0])
    else RuleAt(rules[1..], o)
  }

  /// Some sign rule governs offset `i`.
  predicate SignAt(rules: seq<CharRule>, i: int)
  {
    exists x :: x in rules && x.offset == i && x.sign
  }

  /// The backward scan from position `i` once no rule sits just before the
  /// cursor: the first editable placeholder position is reset unless a sign
  /// rule governs it, and once one did (`signSkip`) nothing more is reset.
  function DeleteScan(rules: seq<CharRule>, placeholder: string, cells: seq<string>, cursor: int, i: int, signSkip: bool): (seq<string>, int)
    decreases i + 1
  {
    if i < 0 then (cells, cursor)
    else if i < |placeholder| && IsSlot(placeholder[i]) then
      if signSkip || SignAt(rules, i) then DeleteScan(rules, placeholder, cells, cursor, i - 1, true)
      else (JsSet(cells, i, [placeholder[i]]), i)
    else DeleteScan(rules, placeholder, cells, cursor, i - 1, signSkip)
  }

  /// Backspace or Delete: restore the position just before the cursor if a
  /// rule governs it, else fall back to the backward scan.
  function Delete(rules: seq<CharRule>, placeholder: string, cells: seq<string>, cursor: int): (seq<string>, int)
  {
    match RuleAt(rules, cursor - 1)
    case Some(r) => (JsSet(cells, r.offset, PlaceholderCell(placeholder, r.offset)), cursor - 1)
    case None => DeleteScan(rules, placeholder, cells, cursor, cursor - 1, false)
  }

  // ---------------------------------------------------------------------------
  // rule-driven writes

  /// The handler's working state: cells, cursor, `keyApplied`, `keySignField`.
  datatype KeyState = KeyState(cells: seq<string>, cursor: int, applied: bool, signField: bool)

  /// "+" or "-", first pass: every rule listing the key receives it; the last
  /// such rule decides whether the sign group is realigned.
  function SignWrite(rules: seq<CharRule>, key: string, p: nat, st: KeyState): KeyState
    decreases |rules| - p
  {
    if p >= |rules| then st
    else if Lists(rules[p].keys, key) then
      SignWrite(rules, key, p + 1, st.(cells := JsSet(st.cells, rules[p].offset, key), signField := rules[p].sign, applied := true))
    else SignWrite(rules, key, p + 1, st)
  }

  /// The letter a sign rule that does not list the key takes for it: S (else
  /// W) for "-", N (else E) for "+", chosen by the letters among its keys.
  function Hemisphere(keys: seq<char>, key: string): Option<string>
  {
    if key == "-" then
      if 'S' in keys || 's' in keys then Some("S") else if 'W' in keys || 'w' in keys then Some("W") else None
    else if key == "+" then
      if 'N' in keys || 'n' in keys then Some("N") else if 'E' in keys || 'e' in keys then Some("E") else None
    else None
  }

  /// "+" or "-", second pass over the sign rules that do not list the key.
  function SignPropagate(rules: seq<CharRule>, key: string, p: nat, cells: seq<string>): seq<string>
    decreases |rules| - p
  {
    if p >= |rules| then cells
    else
      var r := rules[p];
      var h := Hemisphere(r.keys, key);
      SignPropagate(rules, key, p + 1, if r.sign && !Lists(r.keys, key) && h.Some? then JsSet(cells, r.offset, h.value) else cells)
  }

  function SignKey(rules: seq<CharRule>, key: string, st: KeyState): KeyState
  {
    var w := SignWrite(rules, key, 0, st);
    if w.signField then w.(cells := SignPropagate(rules, key, 0, w.cells)) else w
  }

  /// The key as a rule writes it.
  function Written(r: CharRule, key: string): string
  {
    if r.ignoreCase then ToUpper(key) else key
  }

  /// Any other key: the rules are tried in table order. `None` means the key
  /// is swallowed: a digit the non-sign rule at the cursor does not list, or a
  /// key in that rule's ignore keys. A non-sign rule at the cursor listing the
  /// key takes it and moves the cursor on; a sign rule listing it takes it
  /// wherever it is.
  function RuleKey(rules: seq<CharRule>, key: string, p: nat, st: KeyState): Option<KeyState>
    decreases |rules| - p
  {
    if p >= |rules| then Some(st)
    else
      var r := rules[p];
      if st.cursor == r.offset && !Lists(r.keys, key) && IsDigitKey(key) && !r.sign then None
      else if Lists(r.keys, key) then
        if r.sign then
          RuleKey(rules, key, p + 1, st.(cells := JsSet(st.cells, r.offset, Written(r, key)), signField := true, applied := true))
        else if st.cursor == r.offset && Lists(r.ignoreKeys, key) then None
        else if st.cursor == r.offset then
          Some(st.(cells := JsSet(st.cells, r.offset, Written(r, key)), applied := true, cursor := st.cursor + 1))
        else RuleKey(rules, key, p + 1, st)
      else RuleKey(rules, key, p + 1, st)
  }

  /// After a sign letter: rules that do not list it but accept "-" (for S, W)
  /// or "+" (for N, E) take that symbol.
  function Reconcile(rules: seq<CharRule>, key: string, p: nat, cells: seq<string>): seq<string>
    decreases |rules| - p
  {
    if p >= |rules| then cells
    else
      var r := rules[p];
      var next :=
        if Lists(r.keys, key) then cells
        else if key in ["S", "s", "W", "w"] then (if '-' in r.keys then JsSet(cells, r.offset, "-") else cells)
        else if key in ["N", "n", "E", "e"] then (if '+' in r.keys then JsSet(cells, r.offset, "+") else cells)
        else cells;
      Reconcile(rules, key, p + 1, next)
  }

  function OtherKey(rules: seq<CharRule>, key: string, st: KeyState): Option<KeyState>
  {
    match RuleKey(rules, key, 0, st)
    case None => None
    case Some(a) => Some(if a.signField then a.(cells := Reconcile(rules, key, 0, a.cells)) else a)
  }

  // ---------------------------------------------------------------------------
  // the numeric fast path

  predicate ErrorAllowsDigits(error: string)
  {
    error == "" || StartsWith(error, "error length;")
  }

  /// A digit no rule took fills the first `d` of the value, unless a value
  /// error is pending.
  function FastPath(st: KeyState, error: string, key: string): KeyState
  {
    if !st.applied && ErrorAllowsDigits(error) && IsDigitKey(key) then
      var i := IndexOf(st.cells, "d");
      if i != -1 then st.(cells := st.cells[i := key], cursor := st.cursor + 1, applied := true) else st
    else st
  }

  // ---------------------------------------------------------------------------
  // consolidation on a delimiter key

  /// The scan state: first digit since the last reset, last `d` seen (never
  /// reset), `d` count and the digits collected.
  datatype Run = Run(start: int, end: int, count: int, shift: seq<string>)

  const NoRun := Run(-1, -1, 0, [])

  predicate RunWithin(run: Run, i: nat)
  {
    (run.start == -1 || 0 <= run.start < i) && (run.end == -1 || 0 <= run.end < i)
  }

  /// Positions `j..end` of the span: those up to `zeroTo` become "0", each
  /// moving the cursor on; the rest take the collected digits in order
  /// (`undefined`, i.e. "", once they run out).
  function Justify(cells: seq<string>, j: int, end: int, zeroTo: int, shift: seq<string>, o: nat, cursor: int): (r: (seq<string>, int))
    requires 0 <= j && end < |cells|
    ensures |r.0| == |cells|
    decreases end - j + 1
  {
    if j > end then (cells, cursor)
    else if j <= zeroTo then Justify(cells[j := "0"], j + 1, end, zeroTo, shift, o, cursor + 1)
    else Justify(cells[j := if o < |shift| then shift[o] else ""], j + 1, end, zeroTo, shift, o + 1, cursor)
  }

  function ConsolidateScan(cells: seq<string>, keys: seq<char>, i: nat, run: Run, cursor: int): (r: (seq<string>, int))
    requires i <= |cells| && RunWithin(run, i)
    ensures |r.0| == |cells|
    decreases |cells| - i
  {
    if i == |cells| then (cells, cursor)
    else if IsDigitKey(cells[i]) then
      ConsolidateScan(cells, keys, i + 1, run.(start := if run.start == -1 then i else run.start, shift := run.shift + [cells[i]]), cursor)
    else if cells[i] == "d" then
      ConsolidateScan(cells, keys, i + 1, run.(end := i, count := run.count + 1), cursor)
    else if Lists(keys, cells[i]) then
      if run.start == -1 || run.end == -1 then
        ConsolidateScan(cells, keys, i + 1, run.(start := -1, count := 0, shift := []), cursor)
      else Justify(cells, run.start, run.end, run.count + run.start - 1, run.shift, 0, cursor)
    else ConsolidateScan(cells, keys, i + 1, run, cursor)
  }

  /// The area's delimiter rule, when it lists the key, right-justifies the
  /// first run of digits that ends at one of its characters.
  function Consolidate(delimiterRange: map<nat, seq<char>>, area: nat, key: string, cells: seq<string>, cursor: int): (r: (seq<string>, int))
    ensures |r.0| == |cells|
  {
    if area in delimiterRange && Lists(delimiterRange[area], key) then
      ConsolidateScan(cells, delimiterRange[area], 0, NoRun, cursor)
    else (cells, cursor)
  }

  // ---------------------------------------------------------------------------
  // validation

  datatype Verdict = Pass | Fail(message: string) | Throw

  function ValueMessage(sp: Span): string
  {
    "error value; offset " + IntToString(sp.offset) + "/ length " + IntToString(sp.length)
  }

  function LengthMessage(sp: Span): string
  {
    "error length; offset " + IntToString(sp.offset) + "/ length " + IntToString(sp.length)
  }

  /// The cells a rule looks at.
  function SpanCells(cells: seq<string>, sp: Span): seq<string>
  {
    JsSlice(cells, sp.offset, sp.offset + sp.length)
  }

  /// One rule of `maxValueRange` against the value and the cursor. A rule
  /// whose length is NaN never reports: its slice is empty (so `parseInt`
  /// gives NaN) and NaN compares false. A length rule holding a number instead
  /// of a list raises (a number has no `indexOf`).
  function Check(rule: ValueRule, cells: seq<string>, cursor: int): Verdict
  {
    match rule.span
    case None => Pass
    case Some(sp) =>
      match rule.bound
      case MaxValue(max) =>
        if cursor != rule.index then Pass
        else
          var stored := SpanCells(cells, sp);
          if "d" in stored then Pass
          else
            var parsed := ParseInt(Concat(stored));
            if parsed.Some? && (parsed.value < 0 || (max.Some? && parsed.value > max.value)) then Fail(ValueMessage(sp))
            else Pass
      case LengthList(lengths) =>
        if !(sp.offset < cursor <= rule.index) then Pass
        else if IntToString(|RemoveD(Concat(SpanCells(cells, sp)))|) in lengths then Pass
        else Fail(LengthMessage(sp))
      case LengthNumber(_) =>
        if !(sp.offset < cursor <= rule.index) then Pass else Throw
  }

  /// The rules in table order; the first that does not pass decides.
  function Validate(rules: seq<ValueRule>, cells: seq<string>, cursor: int, p: nat): Verdict
    decreases |rules| - p
  {
    if p >= |rules| then Pass
    else match Check(rules[p], cells, cursor)
      case Pass => Validate(rules, cells, cursor, p + 1)
      case v => v
  }

  // ---------------------------------------------------------------------------
  // auto-advance

  predicate IsInputSlot(c: char) { c == '_' || c == 'd' }

  /// The cursor moves over every position whose placeholder is not `_` or `d`
  /// (positions before 0 included) until such a position or the end.
  function Advance(placeholder: string, cursor: int): (r: int)
    ensures cursor <= r
    ensures r <= if cursor < |placeholder| then |placeholder| else cursor
    ensures forall i :: cursor <= i < r ==> !(0 <= i < |placeholder| && IsInputSlot(placeholder[i]))
    ensures r < |placeholder| ==> 0 <= r && IsInputSlot(placeholder[r])
    decreases |placeholder| - cursor
  {
    if cursor < |placeholder| && !(0 <= cursor && IsInputSlot(placeholder[cursor])) then Advance(placeholder, cursor + 1)
    else cursor
  }

  // ---------------------------------------------------------------------------
  // one key

  /// A key either leaves everything as it was (`Swallowed`), raises a
  /// TypeError after moving the cursor (`Raised`), or commits new cells, a
  /// cursor and an error string.
  datatype Outcome = Swallowed | Raised(cursor: int) | Committed(cells: seq<string>, cursor: int, error: string)

  function TypedKey(t: Tables, placeholder: string, area: nat, cells: seq<string>, cursor: int, error: string, key: string): Outcome
  {
    var rules := AreaRules(t.valuesRange, area);
    var start := KeyState(cells, cursor, false, false);
    var keyed := if key == "-" || key == "+" then Some(SignKey(rules, key, start)) else OtherKey(rules, key, start);
    match keyed
    case None => Swallowed
    case Some(k1) =>
      var k2 := FastPath(k1, error, key);
      var (c3, cursor3) := Consolidate(t.delimiterRange, area, key, k2.cells, k2.cursor);
      match Validate(OfArea(t.maxValueRange, ValueArea, area), c3, cursor3, 0)
      case Throw => Raised(cursor3)
      case Pass => Committed(c3, Advance(placeholder, cursor3), "")
      case Fail(m) => Committed(c3, Advance(placeholder, cursor3), m)
  }

  function Reduce(t: Tables, placeholder: string, area: nat, cells: seq<string>, cursor: int, error: string, key: string): Outcome
  {
    if key == "Enter" then Swallowed
    else if area in t.ignoreRange && Lists(t.ignoreRange[area], key) then Swallowed
    else if key == "Backspace" || key == "Delete" then
      var (c, k) := Delete(AreaRules(t.valuesRange, area), placeholder, cells, cursor);
      Committed(c, k, "")
    else TypedKey(t, placeholder, area, cells, cursor, error, key)
  }

  /// The helper's state as the key handler sees it: one value string per area,
  /// the active area, the one cursor all areas share, and the error string.
  datatype Widget = Widget(values: seq<string>, area: nat, cursor: int, error: string)

  function KeyStep(t: Tables, placeholders: seq<string>, w: Widget, key: string): Widget
    requires w.area < |w.values| && w.area < |placeholders|
  {
    match Reduce(t, placeholders[w.area], w.area, Chars(w.values[w.area]), w.cursor, w.error, key)
    case Swallowed => w
    case Raised(k) => w.(cursor := k)
    case Committed(c, k, e) => w.(values := w.values[w.area := Concat(c)], cursor := k, error := e)
  }
}
