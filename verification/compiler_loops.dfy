/// The inner loops of `initialize` and the `addRange` helper, written as the
/// source writes them (a counter `k` walking the mask, a list that grows by
/// pushes) and proved to compute the scanner functions of `MaskRules`.
module CompilerLoops {
  import opened JsText
  import opened MaskRules

  /// `list.addRange(start, stop)`: walk the codes from `start` to `stop` and
  /// push each character the list does not hold yet.
  method AddRangeTo(list: seq<char>, start: char, stop: char) returns (r: seq<char>)
    ensures r == AddRange(list, start, stop)
  {
    r := list;
    var min, max := start as int, stop as int;
    while min <= max
      invariant min <= max + 1 || min == start as int
      invariant AddCodes(r, min, max) == AddCodes(list, start as int, max)
      decreases max - min + 1
    {
      if IsCharCode(min) && min as char !in r {
        r := r + [min as char];
      }
      min := min + 1;
    }
  }

  /// The body of a `[...]` group, from just after the `[` at `j`.
  method ReadBracket(mask: string, j: nat) returns (r: BracketEnd)
    ensures r == ScanBracket(mask, j + 1, Bracket([], [], false))
  {
    var b := Bracket([], [], false);
    var k := j + 1;
    while k < |mask|
      invariant 1 <= k
      invariant ScanBracket(mask, k, b) == ScanBracket(mask, j + 1, Bracket([], [], false))
      decreases |mask| - k
    {
      if mask[k] == ']' {
        return Closed(k, b);
      }
      var isRange := mask[k] == '.' && k + 1 < |mask| && mask[k + 1] == '.';
      if mask[k] == '!' || |b.ignoreKeys| != 0 {
        if isRange {
          if k + 2 >= |mask| {
            return BadRange;
          }
          var keys := AddRangeTo(b.ignoreKeys, mask[k - 1], mask[k + 2]);
          b := b.(ignoreKeys := keys);
          k := k + 2;
        } else {
          b := b.(ignoreKeys := b.ignoreKeys + [mask[k]]);
        }
      } else if mask[k] == '^' {
        b := b.(sign := true);
      } else if isRange {
        if k + 2 >= |mask| {
          return BadRange;
        }
        var keys := AddRangeTo(b.keys, mask[k - 1], mask[k + 2]);
        b := b.(keys := keys);
        k := k + 2;
      } else {
        b := b.(keys := b.keys + [mask[k]]);
      }
      k := k + 1;
    }
    return Unclosed(b);
  }

  /// The body of a `![...]` or `*[...]` list, from position `k0` on.
  method ReadKeyList(mask: string, k0: nat) returns (r: Option<(nat, seq<char>)>)
    requires k0 <= |mask|
    ensures r == ScanKeyList(mask, k0, [])
  {
    var keys: seq<char> := [];
    var k := k0;
    while k < |mask|
      invariant k0 <= k <= |mask|
      invariant ScanKeyList(mask, k, keys) == ScanKeyList(mask, k0, [])
      decreases |mask| - k
    {
      if mask[k] == ']' {
        return Some((k, keys));
      }
      keys := keys + [mask[k]];
      k := k + 1;
    }
    return None;
  }

  /// The body of a `{...}` rule, from position `k0` on. At a `*` the text
  /// since the last `*` becomes the length, the first time only (the branch
  /// that would set a lower bound never runs, the lower bound being 0).
  method ReadBrace(mask: string, k0: nat) returns (r: Option<(nat, Brace)>)
    ensures r == ScanBrace(mask, k0, NewBrace)
  {
    var b := NewBrace;
    var k := k0;
    while k < |mask|
      invariant k0 <= k
      invariant ScanBrace(mask, k, b) == ScanBrace(mask, k0, NewBrace)
      decreases |mask| - k
    {
      if mask[k] == '}' {
        return Some((k, b));
      } else if mask[k] == '*' {
        if b.length == Some(-1) {
          b := b.(length := ParseInt(b.keys));
        }
        b := b.(keys := []);
      } else if mask[k] == 'v' {
        b := b.(isLength := false);
      } else if mask[k] == 'l' {
        b := b.(isLength := true);
      } else {
        b := b.(keys := b.keys + [mask[k]]);
      }
      k := k + 1;
    }
    return None;
  }

  /// A `d` with none before it is the first one.
  lemma {:induction false} FirstDigitAt(ph: string, p: nat)
    requires p < |ph| && ph[p] == 'd' && 'd' !in ph[..p]
    ensures FirstDigitSlot(ph) == p
  {
    if p > 0 {
      assert ph[0] in ph[..p];
      assert ph[1..][..p - 1] == ph[1..p];
      assert forall c :: c in ph[1..p] ==> c in ph[..p];
      FirstDigitAt(ph[1..], p - 1);
    }
  }

  /// The search at the end of each area of `initialize`: the first `d` of the
  /// active area's placeholder, or -1.
  method FindFirstDigit(ph: string) returns (x: int)
    ensures x == FirstDigitSlot(ph)
  {
    var p := 0;
    while p < |ph|
      invariant p <= |ph| && 'd' !in ph[..p]
    {
      if ph[p] == 'd' {
        FirstDigitAt(ph, p);
        return p;
      }
      assert ph[..p + 1] == ph[..p] + [ph[p]];
      p := p + 1;
    }
    assert ph[..p] == ph;
    return -1;
  }
}
