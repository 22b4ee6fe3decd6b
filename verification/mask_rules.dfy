/// The tables `initialize` compiles from the mask of each area, and the
/// scanner that fills them, stated as functions. The class in
/// gis_mask_helper.dfy fills the same tables with loops and is proved to agree
/// with `Compile`.
///
/// Grammar, scanned left to right with an absolute `index` (it runs across
/// areas and also counts the delimiter between them) and an `offset` within
/// the current area:
///   `[...]`      one character rule (`^` marks a sign slot, `!` opens the
///                ignore-key list, `a..b` is a range of characters);
///   `\A \a \i \u \!`  one character rule with a built-in key set;
///   `![...]`     the area's ignore keys;     `*[...]` the area's delimiter keys;
///   `{...}`      a value or length rule over the preceding slots;
///   anything else is a literal position.
module MaskRules {
  import opened JsText

  /// One editable position, compiled from a `[...]` group or an escape.
  datatype CharRule = CharRule(
    index: nat,          // key of the rule in the compiled table
    area: nat,
    offset: nat,         // position inside the area's value
    sign: bool,          // part of the area's sign group
    ignoreCase: bool,    // key is written upper-cased
    convertUpper: bool,  // set by `\u`; never consulted by the key handler
    keys: seq<char>,
    ignoreKeys: seq<char>)

  /// Where a value or length rule looks: `offset` is the area offset at the
  /// `{` minus `length`. A length that does not parse (NaN) leaves no span.
  datatype Span = Span(offset: int, length: int)

  /// What a `{...}` rule compares with. The lower bound of a value rule is
  /// always 0. A length rule without `|` keeps a number, not a list.
  datatype Bound =
    | MaxValue(max: Option<int>)
    | LengthList(lengths: seq<string>)
    | LengthNumber(max: Option<int>)

  datatype ValueRule = ValueRule(index: nat, area: nat, span: Option<Span>, bound: Bound)

  /// `valuesRange`, `ignoreRange`, `delimiterRange` and `maxValueRange`. The two
  /// rule tables are keyed by `index`, which only grows, so the order in which
  /// JavaScript enumerates them is the order in which they were filled.
  datatype Tables = Tables(
    valuesRange: seq<CharRule>,
    ignoreRange: map<nat, seq<char>>,
    delimiterRange: map<nat, seq<char>>,
    maxValueRange: seq<ValueRule>)

  const NoTables := Tables([], map[], map[], [])

  const UpperLetters := "ABCDEFGHIJKLMNOPQRSTUVWXYZ"
  const LowerLetters := "abcdefghijklmnopqrstuvwxyz"
  const Punctuation := "`~!@#$%^&*()-_=+[]{}\\|;:'\",<.>/?"

  // ---------------------------------------------------------------------------
  // addRange

  predicate IsCharCode(n: int) { 0 <= n < 0xD800 || 0xE000 <= n < 0x11_0000 }

  /// `list.addRange(start, stop)`: append every character from `start` to
  /// `stop` (by code) that the list does not already hold, in code order.
  function AddRange(list: seq<char>, start: char, stop: char): seq<char>
  {
    AddCodes(list, start as int, stop as int)
  }

  function AddCodes(list: seq<char>, lo: int, hi: int): seq<char>
    decreases hi - lo + 1
  {
    if lo > hi then list
    else AddCodes(if IsCharCode(lo) && lo as char !in list then list + [lo as char] else list, lo + 1, hi)
  }

  predicate NoDuplicates(s: seq<char>)
  {
    forall i, j :: 0 <= i < j < |s| ==> s[i] != s[j]
  }

  // ---------------------------------------------------------------------------
  // the bracket scanners

  datatype Bracket = Bracket(keys: seq<char>, ignoreKeys: seq<char>, sign: bool)

  /// How the scan of a `[...]` group ends: at its `]`, at the end of the mask,
  /// or with the TypeError `addRange` raises when a range lacks its upper end.
  datatype BracketEnd = Closed(close: nat, group: Bracket) | Unclosed(group: Bracket) | BadRange

  /// The body of `[...]` from position `k` on.
  function ScanBracket(mask: string, k: nat, b: Bracket): (r: BracketEnd)
    requires 1 <= k
    ensures r.Closed? ==> k <= r.close < |mask| && mask[r.close] == ']'
    decreases |mask| - k
  {
    if k >= |mask| then Unclosed(b)
    else if mask[k] == ']' then Closed(k, b)
    else if mask[k] == '!' || |b.ignoreKeys| != 0 then
      if mask[k] == '.' && k + 1 < |mask| && mask[k + 1] == '.' then
        if k + 2 < |mask| then ScanBracket(mask, k + 3, b.(ignoreKeys := AddRange(b.ignoreKeys, mask[k - 1], mask[k + 2])))
        else BadRange
      else ScanBracket(mask, k + 1, b.(ignoreKeys := b.ignoreKeys + [mask[k]]))
    else if mask[k] == '^' then ScanBracket(mask, k + 1, b.(sign := true))
    else if mask[k] == '.' && k + 1 < |mask| && mask[k + 1] == '.' then
      if k + 2 < |mask| then ScanBracket(mask, k + 3, b.(keys := AddRange(b.keys, mask[k - 1], mask[k + 2])))
      else BadRange
    else ScanBracket(mask, k + 1, b.(keys := b.keys + [mask[k]]))
  }

  /// The body of `![...]` or `*[...]` from position `k` on: the position of its
  /// `]` and the characters before it, or `None` when it is never closed.
  function ScanKeyList(mask: string, k: nat, keys: seq<char>): (r: Option<(nat, seq<char>)>)
    requires k <= |mask|
    ensures r.Some? ==> var (c, ks) := r.value;
      k <= c < |mask| && mask[c] == ']' && ']' !in mask[k..c] && ks == keys + mask[k..c]
    ensures r.None? ==> ']' !in mask[k..]
    decreases |mask| - k
  {
    if k >= |mask| then None
    else if mask[k] == ']' then Some((k, keys))
    else
      var r := ScanKeyList(mask, k + 1, keys + [mask[k]]);
      assert mask[k..] == [mask[k]] + mask[k + 1..];
      assert r.Some? ==> mask[k..r.value.0] == [mask[k]] + mask[k + 1..r.value.0];
      r
  }

  /// The body of `{...}` so far: the kind (`v` or `l`), the length read at the
  /// first `*` (-1 before it, `None` for NaN) and the characters since the
  /// last `*`.
  datatype Brace = Brace(isLength: bool, length: Option<int>, keys: seq<char>)

  const NewBrace := Brace(false, Some(-1), [])

  function ScanBrace(mask: string, k: nat, b: Brace): (r: Option<(nat, Brace)>)
    ensures r.Some? ==> k <= r.value.0 < |mask| && mask[r.value.0] == '}'
    decreases |mask| - k
  {
    if k >= |mask| then None
    else if mask[k] == '}' then Some((k, b))
    else if mask[k] == '*' then
      ScanBrace(mask, k + 1, b.(length := if b.length == Some(-1) then ParseInt(b.keys) else b.length, keys := []))
    else if mask[k] == 'v' then ScanBrace(mask, k + 1, b.(isLength := false))
    else if mask[k] == 'l' then ScanBrace(mask, k + 1, b.(isLength := true))
    else ScanBrace(mask, k + 1, b.(keys := b.keys + [mask[k]]))
  }

  /// The rule stored when a `{...}` closes at area offset `offset`.
  function BraceRule(index: nat, area: nat, offset: nat, b: Brace): ValueRule
  {
    var bound :=
      if !b.isLength then MaxValue(ParseInt(b.keys))
      else if '|' !in b.keys then LengthNumber(ParseInt(b.keys))
      else LengthList(Split(b.keys, "|"));
    var span := match b.length
      case Some(l) => Some(Span(offset - l, l))
      case None => None;
    ValueRule(index, area, span, bound)
  }

  /// The rule an escape `\c` stands for, if `c` is one of `A a i u !`.
  function EscapeRule(c: Option<char>, index: nat, area: nat, offset: nat): Option<CharRule>
  {
    match c
    case Some('A') => Some(CharRule(index, area, offset, false, false, false, UpperLetters, []))
    case Some('a') => Some(CharRule(index, area, offset, false, false, false, LowerLetters, []))
    case Some('i') => Some(CharRule(index, area, offset, false, true, false, UpperLetters + LowerLetters, []))
    case Some('u') => Some(CharRule(index, area, offset, false, true, true, UpperLetters + LowerLetters, []))
    case Some('!') => Some(CharRule(index, area, offset, false, false, false, Punctuation, []))
    case _ => None
  }

  // ---------------------------------------------------------------------------
  // one token, one area, all areas

  /// Scanner position within one area's mask, with the two counters.
  datatype Scan = Scan(j: nat, index: nat, offset: nat, tables: Tables)

  datatype Step = Next(next: Scan) | Failed

  /// The effect of the token that starts at `s.j`.
  function Token(mask: string, area: nat, s: Scan): (r: Step)
    requires s.j < |mask|
    ensures r.Next? ==> r.next.j > s.j
  {
    var j, t := s.j, s.tables;
    if mask[j] == '[' then
      match ScanBracket(mask, j + 1, Bracket([], [], false))
      case BadRange => Failed
      case Closed(k, b) =>
        var rule := CharRule(s.index, area, s.offset, b.sign, false, false, b.keys, b.ignoreKeys);
        Next(Scan(k + 1, s.index + 1, s.offset + 1, t.(valuesRange := t.valuesRange + [rule])))
      case Unclosed(_) => Next(Scan(j + 1, s.index, s.offset + 1, t))
    else if mask[j] == '\\' then
      match EscapeRule(if j + 1 < |mask| then Some(mask[j + 1]) else None, s.index, area, s.offset)
      case Some(rule) => Next(Scan(j + 2, s.index + 1, s.offset + 1, t.(valuesRange := t.valuesRange + [rule])))
      case None => Next(Scan(j + 2, s.index, s.offset + 1, t))
    else if mask[j] == '!' && j + 1 < |mask| && mask[j + 1] == '[' then
      match ScanKeyList(mask, j + 2, [])
      case Some((k, keys)) => Next(Scan(k + 1, s.index, s.offset, t.(ignoreRange := t.ignoreRange[area := keys])))
      case None => Next(s.(j := j + 1))
    else if mask[j] == '*' && j + 1 < |mask| && mask[j + 1] == '[' then
      match ScanKeyList(mask, j + 2, [])
      case Some((k, keys)) => Next(Scan(k + 1, s.index, s.offset, t.(delimiterRange := t.delimiterRange[area := keys])))
      case None => Next(s.(j := j + 1))
    else if mask[j] == '{' then
      match ScanBrace(mask, j + 1, NewBrace)
      case Some((k, b)) =>
        var rule := BraceRule(s.index, area, s.offset, b);
        Next(Scan(k + 1, s.index + 1, s.offset, t.(maxValueRange := t.maxValueRange + [rule])))
      case None => Next(s.(j := j + 1))
    else Next(Scan(j + 1, s.index + 1, s.offset + 1, t))
  }

  /// How the scan of one area ends: the final scanner state, or the state
  /// before the token that raised.
  datatype AreaEnd = AreaEnd(last: Scan, ok: bool)

  function ScanArea(mask: string, area: nat, s: Scan): AreaEnd
    decreases |mask| - s.j
  {
    if s.j >= |mask| then AreaEnd(s, true)
    else match Token(mask, area, s)
      case Failed => AreaEnd(s, false)
      case Next(s') => ScanArea(mask, area, s')
  }

  /// The outcome of `initialize`'s mask scan: the tables, whether it ran to the
  /// end, and how many areas it finished.
  datatype Compiled = Compiled(tables: Tables, ok: bool, areas: nat)

  /// The scan of areas `i..` with the index counter at `index` at the end of
  /// area `i - 1` (the delimiter length is added before every area but the
  /// first).
  function CompileAreas(masks: seq<string>, delimiterLength: nat, i: nat, index: nat, t: Tables): (r: Compiled)
    ensures r.areas <= |masks| || i > |masks|
    decreases |masks| - i
  {
    if i >= |masks| then Compiled(t, true, i)
    else
      var start := if i == 0 then index else index + delimiterLength;
      var a := ScanArea(masks[i], i, Scan(0, start, 0, t));
      if !a.ok then Compiled(a.last.tables, false, i)
      else CompileAreas(masks, delimiterLength, i + 1, a.last.index, a.last.tables)
  }

  function Compile(masks: seq<string>, delimiterLength: nat): Compiled
  {
    CompileAreas(masks, delimiterLength, 0, 0, NoTables)
  }

  /// The initial cursor: the first `d` of the placeholder, or -1.
  function FirstDigitSlot(placeholder: string): (r: int)
    ensures -1 <= r < |placeholder|
    ensures r == -1 <==> 'd' !in placeholder
    ensures r >= 0 ==> placeholder[r] == 'd' && 'd' !in placeholder[..r]
  {
    if placeholder == [] then -1
    else if placeholder[0] == 'd' then 0
    else
      var t := FirstDigitSlot(placeholder[1..]);
      assert placeholder[1..][..if t < 0 then 0 else t] == placeholder[1..if t < 0 then 1 else t + 1];
      if t == -1 then -1 else t + 1
  }
}
