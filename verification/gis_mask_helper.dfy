/// The helper object: its constructor, `initialize` (the mask compiler and
/// the initial cursor), `processKeyInput` and `selectInputArea`, as a class
/// whose fields are the object's properties. Each method is proved to leave
/// the object in the state the functions of `MaskRules`, `KeyReducer` and
/// `AreaSelection` describe.
module MaskHelper {
  import opened JsText
  import opened MaskRules
  import opened KeyReducer
  import opened AreaSelection
  import opened CompilerLoops
  import opened KeyLoops

  class GISMaskHelper {
    /// The mask and the placeholder, split at the delimiter into areas.
    const mask: seq<string>
    const placeholder: seq<string>
    const delimiter: string

    /// One value string per area, the active area and its selection.
    var value: seq<string>
    var area: nat
    var selStart: int
    var selEnd: int

    var errorMessage: string
    /// The cursor `initialize` computes, and the one cursor every area shares.
    var valueOffsetInit: int
    var valueOffsetCurrent: int

    var valuesRange: seq<CharRule>
    var ignoreRange: map<nat, seq<char>>
    var delimiterRange: map<nat, seq<char>>
    var maxValueRange: seq<ValueRule>

    ghost predicate Valid()
      reads this
    {
      |mask| == |placeholder| == |value| && 1 <= |value| && area < |value|
    }

    /// The four rule tables as one value.
    function RuleTables(): Tables
      reads this
    {
      Tables(valuesRange, ignoreRange, delimiterRange, maxValueRange)
    }

    /// What the key handler reads and writes.
    function State(): Widget
      reads this
    {
      Widget(value, area, valueOffsetCurrent, errorMessage)
    }

    /// The delimited constructor: mask and placeholder are split at the
    /// delimiter and every area's value starts as its placeholder.
    constructor (maskText: string, placeholderText: string, delimiterText: string)
      requires |Split(maskText, delimiterText)| == |Split(placeholderText, delimiterText)| >= 1
      ensures Valid()
      ensures mask == Split(maskText, delimiterText) && placeholder == Split(placeholderText, delimiterText)
      ensures delimiter == delimiterText
      ensures value == placeholder && JoinWith(value, delimiter) == placeholderText
      ensures area == 0 && selStart == 0 && selEnd == 0 && errorMessage == ""
      ensures valueOffsetInit == -1 && valueOffsetCurrent == -1
      ensures RuleTables() == NoTables
    {
      mask := Split(maskText, delimiterText);
      placeholder := Split(placeholderText, delimiterText);
      delimiter := delimiterText;
      valuesRange, ignoreRange, delimiterRange, maxValueRange := [], map[], map[], [];
      selStart, selEnd := 0, 0;
      errorMessage := "";
      valueOffsetInit, valueOffsetCurrent := -1, -1;
      area := 0;
      new;
      var v: seq<string> := [];
      var i := 0;
      while i < |mask|
        invariant i <= |mask| && v == placeholder[..i]
      {
        v := v + [placeholder[i]];
        i := i + 1;
      }
      value := v;
      SplitJoin(placeholderText, delimiterText);
    }

    /// `initialize`: scan every area's mask into the rule tables, then set
    /// the initial cursor to the first `d` of the active area's placeholder.
    /// The cursor is set after each area, so a mask that raises part way
    /// keeps the cursor of the last area that finished (or none). Every entry
    /// goes under a key that the scan alone determines, so a repeated call
    /// rebuilds exactly the entries the first call made; the tables are
    /// therefore built from empty ones.
    method Initialize() returns (ok: bool)
      requires Valid()
      modifies this`valuesRange, this`ignoreRange, this`delimiterRange, this`maxValueRange, this`valueOffsetInit, this`valueOffsetCurrent
      ensures Valid()
      ensures var c := Compile(mask, |delimiter|);
        RuleTables() == c.tables && ok == c.ok
        && (c.areas > 0 ==> valueOffsetInit == valueOffsetCurrent == FirstDigitSlot(placeholder[area]))
        && (c.areas == 0 ==> valueOffsetInit == old(valueOffsetInit) && valueOffsetCurrent == old(valueOffsetCurrent))
    {
      valuesRange, ignoreRange, delimiterRange, maxValueRange := [], map[], map[], [];
      var index: nat := 0;
      var i := 0;
      while i < |mask|
        invariant i <= |mask| && Valid()
        invariant CompileAreas(mask, |delimiter|, i, index, RuleTables()) == Compile(mask, |delimiter|)
        invariant i > 0 ==> valueOffsetInit == valueOffsetCurrent == FirstDigitSlot(placeholder[area])
        invariant i == 0 ==> valueOffsetInit == old(valueOffsetInit) && valueOffsetCurrent == old(valueOffsetCurrent)
      {
        index := if i == 0 then index else index + |delimiter|;
        var areaOk;
        index, areaOk := ScanMask(mask[i], i, index);
        if !areaOk {
          return false;
        }
        // The search for the first `d`; the `_` branch of the source writes to
        // the rule object the loop visits, never to the helper.
        valueOffsetInit := FindFirstDigit(placeholder[area]);
        valueOffsetCurrent := valueOffsetInit;
        i := i + 1;
      }
      return true;
    }

    /// One pass of `initialize`'s inner loop over the mask of area `i`,
    /// starting with the index counter at `start`: each token adds its entry
    /// to the tables. `ok` is false when a `[...]` range raises; the tables
    /// then hold what the tokens before it added.
    method ScanMask(m: string, i: nat, start: nat) returns (index: nat, ok: bool)
      modifies this`valuesRange, this`ignoreRange, this`delimiterRange, this`maxValueRange
      ensures var a := ScanArea(m, i, Scan(0, start, 0, old(RuleTables())));
        RuleTables() == a.last.tables && index == a.last.index && ok == a.ok
    {
      index := start;
      ghost var first := Scan(0, start, 0, RuleTables());
      var offset: nat := 0;
      var j: nat := 0;
      while j < |m|
        invariant ScanArea(m, i, Scan(j, index, offset, RuleTables())) == ScanArea(m, i, first)
        decreases |m| - j
      {
        ok, j, index, offset := ScanToken(m, i, j, index, offset);
        if !ok {
          return index, false;
        }
      }
      return index, true;
    }

    /// One token of the mask of area `i` at position `j`: its entry goes
    /// into the tables and the counters move past it. `ok` is false when a
    /// `[...]` range raises; nothing is then stored.
    method ScanToken(m: string, i: nat, j0: nat, index0: nat, offset0: nat) returns (ok: bool, j: nat, index: nat, offset: nat)
      requires j0 < |m|
      modifies this`valuesRange, this`ignoreRange, this`delimiterRange, this`maxValueRange
      ensures Token(m, i, Scan(j0, index0, offset0, old(RuleTables())))
           == if ok then Next(Scan(j, index, offset, RuleTables())) else Failed
      ensures !ok ==> RuleTables() == old(RuleTables()) && index == index0
    {
      ok, j, index, offset := true, j0, index0, offset0;
      ghost var s := Scan(j, index, offset, RuleTables());
      ghost var t := RuleTables();
      ghost var step := Token(m, i, s);
      if m[j] == '[' {
        var group := ReadBracket(m, j);
        match group
        case BadRange =>
          assert step == Failed;
          return false, j, index, offset;
        case Closed(k, b) =>
          var rule := CharRule(index, i, offset, b.sign, false, false, b.keys, b.ignoreKeys);
          assert step == Next(Scan(k + 1, index + 1, offset + 1, t.(valuesRange := t.valuesRange + [rule])));
          valuesRange := valuesRange + [rule];
          index, offset, j := index + 1, offset + 1, k + 1;
        case Unclosed(_) =>
          assert step == Next(Scan(j + 1, index, offset + 1, t));
          offset, j := offset + 1, j + 1;
      } else if m[j] == '\\' {
        var rule := EscapeRule(if j + 1 < |m| then Some(m[j + 1]) else None, index, i, offset);
        if rule.Some? {
          assert step == Next(Scan(j + 2, index + 1, offset + 1, t.(valuesRange := t.valuesRange + [rule.value])));
          valuesRange := valuesRange + [rule.value];
          index := index + 1;
        } else {
          assert step == Next(Scan(j + 2, index, offset + 1, t));
        }
        offset, j := offset + 1, j + 2;
      } else if m[j] == '!' && j + 1 < |m| && m[j + 1] == '[' {
        var list := ReadKeyList(m, j + 2);
        if list.Some? {
          assert step == Next(Scan(list.value.0 + 1, index, offset, t.(ignoreRange := t.ignoreRange[i := list.value.1])));
          ignoreRange := ignoreRange[i := list.value.1];
          j := list.value.0 + 1;
        } else {
          assert step == Next(s.(j := j + 1));
          j := j + 1;
        }
      } else if m[j] == '*' && j + 1 < |m| && m[j + 1] == '[' {
        var list := ReadKeyList(m, j + 2);
        if list.Some? {
          assert step == Next(Scan(list.value.0 + 1, index, offset, t.(delimiterRange := t.delimiterRange[i := list.value.1])));
          delimiterRange := delimiterRange[i := list.value.1];
          j := list.value.0 + 1;
        } else {
          assert step == Next(s.(j := j + 1));
          j := j + 1;
        }
      } else if m[j] == '{' {
        var brace := ReadBrace(m, j + 1);
        if brace.Some? {
          var rule := BraceRule(index, i, offset, brace.value.1);
          assert step == Next(Scan(brace.value.0 + 1, index + 1, offset, t.(maxValueRange := t.maxValueRange + [rule])));
          maxValueRange := maxValueRange + [rule];
          index, j := index + 1, brace.value.0 + 1;
        } else {
          assert step == Next(s.(j := j + 1));
          j := j + 1;
        }
      } else {
        assert step == Next(Scan(j + 1, index + 1, offset + 1, t));
        index, offset, j := index + 1, offset + 1, j + 1;
      }
    }

    /// `processKeyInput`: the active area's value is split into cells, the
    /// key runs through the handler's stages, and the cells are joined back.
    /// `raised` reports the TypeError of a length rule that holds a number:
    /// the cursor moves made before it stay, nothing else is stored.
    method ProcessKeyInput(key: string) returns (raised: bool)
      requires Valid()
      modifies this`value, this`valueOffsetCurrent, this`errorMessage
      ensures Valid()
      ensures State() == KeyStep(RuleTables(), placeholder, old(State()), key)
      ensures raised <==> Reduce(RuleTables(), placeholder[area], area, Chars(old(value)[area]), old(valueOffsetCurrent), old(errorMessage), key).Raised?
    {
      raised := false;
      if key == "Enter" {
        return;
      }
      var cells := Chars(value[area]);
      var ph := placeholder[area];
      if area in ignoreRange && Lists(ignoreRange[area], key) {
        return;
      }
      if key == "Backspace" || key == "Delete" {
        var rules := CollectArea(valuesRange, CharArea, area);
        cells, valueOffsetCurrent := DeleteBack(rules, ph, cells, valueOffsetCurrent);
        errorMessage := "";
      } else {
        var outcome := TypeKey(RuleTables(), ph, area, cells, valueOffsetCurrent, errorMessage, key);
        match outcome
        case Swallowed =>
          return;
        case Raised(k) =>
          valueOffsetCurrent := k;
          return true;
        case Committed(c, k, e) =>
          cells, valueOffsetCurrent, errorMessage := c, k, e;
      }
      value := value[area := Concat(cells)];
    }

    /// `selectInputArea`: the placeholder is rebuilt area by area, each
    /// followed by the delimiter, until it reaches past the caret; that area
    /// becomes active with its span selected. A caret past every area changes
    /// nothing.
    method SelectInputArea(caret: nat)
      requires Valid()
      modifies this`area, this`selStart, this`selEnd
      ensures Valid()
      ensures match SelectArea(placeholder, |delimiter|, caret)
        case None => area == old(area) && selStart == old(selStart) && selEnd == old(selEnd)
        case Some(sel) => area == sel.area && selStart == sel.selStart && selEnd == sel.selEnd
    {
      var text := "";
      var i := 0;
      while i < |placeholder|
        invariant i <= |placeholder|
        invariant |text| == Prefix(placeholder, |delimiter|, i)
        invariant SelectFrom(placeholder, |delimiter|, caret, i) == SelectArea(placeholder, |delimiter|, caret)
      {
        var start := if i == 0 then i else |text| + |delimiter| - 1;
        text := text + placeholder[i] + delimiter;
        var end := |text| - |delimiter|;
        if |text| > caret {
          area, selStart, selEnd := i, start, end;
          return;
        }
        i := i + 1;
      }
    }
  }
}
