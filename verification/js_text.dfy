/// The JavaScript built-ins the mask helper leans on, written out:
/// `String.prototype.split`, `Array.prototype.join`, `slice`, `indexOf`,
/// writes into an array, `parseInt`, `toUpperCase` and number-to-string
/// conversion. A JavaScript string is a `string`; an array of strings (the
/// split value of one area) is a `seq<string>`, in which an `undefined`
/// element or a hole is the empty string, since that is how `join` renders it.
module JsText {

  datatype Option<+T> = None | Some(value: T)

  predicate IsDigit(c: char) { '0' <= c <= '9' }

  /// One of the strings "0" … "9" (a key name or a cell of the value array).
  predicate IsDigitKey(s: string) { |s| == 1 && IsDigit(s[0]) }

  /// `keys.indexOf(key) !== -1` for an array of one-character strings.
  predicate Lists(keys: seq<char>, key: string) { |key| == 1 && key[0] in keys }

  function UpperChar(c: char): char
  {
    if 'a' <= c <= 'z' then (c as int - 32) as char else c
  }

  /// `key.toUpperCase()` for ASCII letters.
  function ToUpper(s: string): string
  {
    seq(|s|, i requires 0 <= i < |s| => UpperChar(s[i]))
  }

  /// `s.startsWith(p)`.
  predicate StartsWith(s: string, p: string) { |p| <= |s| && s[..|p|] == p }

  // ---------------------------------------------------------------------------
  // split and join

  /// `s.split("")`: one cell per character.
  function Chars(s: string): (r: seq<string>)
    ensures |r| == |s|
    ensures forall i :: 0 <= i < |s| ==> r[i] == [s[i]]
  {
    seq(|s|, i requires 0 <= i < |s| => [s[i]])
  }

  /// `cells.join("")`.
  function Concat(cells: seq<string>): string
  {
    if cells == [] then "" else cells[0] + Concat(cells[1..])
  }

  /// `parts.join(sep)`.
  function JoinWith(parts: seq<string>, sep: string): string
  {
    if parts == [] then ""
    else if |parts| == 1 then parts[0]
    else parts[0] + sep + JoinWith(parts[1..], sep)
  }

  /// `sep` occurs in `s` at position `i`.
  predicate OccursAt(s: string, sep: string, i: int)
  {
    0 <= i && i + |sep| <= |s| && s[i..i + |sep|] == sep
  }

  /// Position of the first occurrence of a non-empty `sep` in `s` at or after
  /// `from`, or -1.
  function Find(s: string, sep: string, from: nat): (r: int)
    requires sep != []
    ensures r == -1 || (from <= r && OccursAt(s, sep, r))
    ensures r == -1 ==> forall i :: from <= i ==> !OccursAt(s, sep, i)
    ensures r != -1 ==> forall i :: from <= i < r ==> !OccursAt(s, sep, i)
    decreases |s| - from
  {
    if from + |sep| > |s| then -1
    else if s[from..from + |sep|] == sep then from
    else Find(s, sep, from + 1)
  }

  /// `s.split(sep)`: the pieces between non-overlapping occurrences of `sep`,
  /// found left to right; an empty separator splits into characters.
  function Split(s: string, sep: string): (r: seq<string>)
    ensures sep != [] ==> |r| >= 1
    decreases |s|
  {
    if sep == [] then Chars(s)
    else
      var i := Find(s, sep, 0);
      if i == -1 then [s] else [s[..i]] + Split(s[i + |sep|..], sep)
  }

  /// Joining the pieces of a split with the same separator gives the text back.
  lemma {:induction false} SplitJoin(s: string, sep: string)
    ensures JoinWith(Split(s, sep), sep) == s
    decreases |s|
  {
    if sep == [] {
      CharsJoin(s);
    } else {
      var i := Find(s, sep, 0);
      if i != -1 {
        var rest := s[i + |sep|..];
        SplitJoin(rest, sep);
        assert Split(s, sep) == [s[..i]] + Split(rest, sep);
        assert s == s[..i] + sep + rest by {
          assert s[i..i + |sep|] == sep;
        }
      }
    }
  }

  lemma {:induction false} CharsJoin(s: string)
    ensures JoinWith(Chars(s), "") == s
    decreases |s|
  {
    if |s| > 1 {
      CharsJoin(s[1..]);
      assert Chars(s)[1..] == Chars(s[1..]);
    }
  }

  /// Splitting a text into characters and joining them again gives it back.
  lemma {:induction false} ConcatChars(s: string)
    ensures Concat(Chars(s)) == s
    decreases |s|
  {
    if s != [] {
      ConcatChars(s[1..]);
      assert Chars(s)[1..] == Chars(s[1..]);
    }
  }

  // ---------------------------------------------------------------------------
  // arrays

  /// `a[k] = x`: in range it replaces one cell; past the end the array grows,
  /// and the holes it leaves join as empty strings.
  function JsSet(cells: seq<string>, k: nat, x: string): (r: seq<string>)
    ensures |r| == if k < |cells| then |cells| else k + 1
    ensures r[k] == x
    ensures forall i :: 0 <= i < |cells| && i != k ==> r[i] == cells[i]
  {
    if k < |cells| then cells[k := x] else cells + seq(k - |cells|, _ => "") + [x]
  }

  /// `a.indexOf(x)`: the first position holding `x`, or -1.
  function IndexOf(cells: seq<string>, x: string): (r: int)
    ensures -1 <= r < |cells|
    ensures r == -1 <==> x !in cells
    ensures r >= 0 ==> cells[r] == x && x !in cells[..r]
  {
    if cells == [] then -1
    else if cells[0] == x then 0
    else
      var t := IndexOf(cells[1..], x);
      assert cells[1..][..if t < 0 then 0 else t] == cells[1..if t < 0 then 1 else t + 1];
      if t == -1 then -1 else t + 1
  }

  /// Where `slice` starts or stops for a relative position `x` on a sequence of
  /// length `len` (a negative position counts from the end).
  function ClampIndex(x: int, len: nat): (r: nat)
    ensures r <= len
  {
    if x < 0 then (if len + x < 0 then 0 else len + x) else if x > len then len else x
  }

  /// `a.slice(begin, end)` for integer bounds.
  function JsSlice<T>(s: seq<T>, begin: int, end: int): seq<T>
  {
    var b := ClampIndex(begin, |s|);
    var e := ClampIndex(end, |s|);
    if b < e then s[b..e] else []
  }

  /// `s.replace(/d/g, "")`.
  function RemoveD(s: string): (r: string)
    ensures |r| <= |s|
    ensures 'd' !in r
  {
    if s == [] then "" else (if s[0] == 'd' then "" else [s[0]]) + RemoveD(s[1..])
  }

  // ---------------------------------------------------------------------------
  // numbers

  /// The characters `parseInt` skips at the start: white space and line
  /// terminators of ECMAScript (tab, LF, VT, FF, CR, space, NBSP, the Zs
  /// spaces, LS, PS and the byte-order mark).
  predicate IsJsSpace(c: char)
  {
    var n := c as int;
    (9 <= n <= 13) || n == 32 || n == 0xA0 || n == 0x1680 || (0x2000 <= n <= 0x200A)
    || n == 0x2028 || n == 0x2029 || n == 0x202F || n == 0x205F || n == 0x3000 || n == 0xFEFF
  }

  function TrimStart(s: string): string
  {
    if s != [] && IsJsSpace(s[0]) then TrimStart(s[1..]) else s
  }

  predicate IsRadixDigit(c: char, hex: bool)
  {
    IsDigit(c) || (hex && ('a' <= c <= 'f' || 'A' <= c <= 'F'))
  }

  function DigitValue(c: char): nat
  {
    if IsDigit(c) then c as int - '0' as int
    else if 'a' <= c <= 'f' then c as int - 'a' as int + 10
    else if 'A' <= c <= 'F' then c as int - 'A' as int + 10
    else 0
  }

  /// Length of the run of radix digits at the start of `s`.
  function DigitRun(s: string, hex: bool): (n: nat)
    ensures n <= |s|
    ensures forall i :: 0 <= i < n ==> IsRadixDigit(s[i], hex)
    ensures n < |s| ==> !IsRadixDigit(s[n], hex)
  {
    if s != [] && IsRadixDigit(s[0], hex) then 1 + DigitRun(s[1..], hex) else 0
  }

  /// The value of a run of digits in radix 10 or 16, most significant first.
  function DigitsValue(s: string, hex: bool): nat
  {
    if s == [] then 0
    else DigitsValue(s[..|s| - 1], hex) * (if hex then 16 else 10) + DigitValue(s[|s| - 1])
  }

  /// `parseInt(s)` with no radix argument; `None` is NaN. Leading white space
  /// is skipped, one sign is read, a `0x`/`0X` prefix selects radix 16, and the
  /// longest run of digits that follows is the value.
  function ParseInt(s: string): Option<int>
  {
    var t := TrimStart(s);
    var negative := t != [] && t[0] == '-';
    var u := if t != [] && (t[0] == '-' || t[0] == '+') then t[1..] else t;
    var hex := |u| >= 2 && u[0] == '0' && (u[1] == 'x' || u[1] == 'X');
    var w := if hex then u[2..] else u;
    var n := DigitRun(w, hex);
    if n == 0 then None
    else
      var v: int := DigitsValue(w[..n], hex);
      Some(if negative then -v else v)
  }

  function DigitChar(d: nat): (c: char)
    requires d < 10
    ensures IsDigit(c) && DigitValue(c) == d
  {
    ('0' as int + d) as char
  }

  /// The decimal text of a natural number, as `String(n)` writes it.
  function NatToString(n: nat): (r: string)
    ensures r != []
    decreases n
  {
    if n < 10 then [DigitChar(n)] else NatToString(n / 10) + [DigitChar(n % 10)]
  }

  /// `String(n)` (and `"" + n`) for an integer.
  function IntToString(n: int): string
  {
    if n < 0 then "-" + NatToString(-n) else NatToString(n)
  }

  lemma {:induction false} NatToStringDigits(n: nat)
    ensures forall i :: 0 <= i < |NatToString(n)| ==> IsDigit(NatToString(n)[i])
    ensures DigitsValue(NatToString(n), false) == n
    ensures n >= 10 ==> NatToString(n)[0] != '0'
    decreases n
  {
    if n >= 10 {
      NatToStringDigits(n / 10);
      var s := NatToString(n);
      assert s[..|s| - 1] == NatToString(n / 10);
    }
  }

  /// `parseInt` reads back every integer that `String` writes.
  lemma ParseIntToString(n: int)
    ensures ParseInt(IntToString(n)) == Some(n)
  {
    var m := if n < 0 then -n else n;
    var d := NatToString(m);
    NatToStringDigits(m);
    var s := IntToString(n);
    assert TrimStart(s) == s;
    var u := if n < 0 then s[1..] else s;
    assert u == d;
    assert !(|d| >= 2 && d[0] == '0');
    assert DigitRun(d, false) == |d| by {
      DigitRunAll(d);
    }
    assert d[..|d|] == d;
  }

  lemma {:induction false} DigitRunAll(s: string)
    requires forall i :: 0 <= i < |s| ==> IsDigit(s[i])
    ensures DigitRun(s, false) == |s|
    decreases |s|
  {
    if s != [] {
      DigitRunAll(s[1..]);
    }
  }

  /// `parseInt` of a non-empty run of decimal digits is its value (leading
  /// zeros included).
  lemma ParseIntDigits(s: string)
    requires s != [] && forall i :: 0 <= i < |s| ==> IsDigit(s[i])
    ensures ParseInt(s) == Some(DigitsValue(s, false))
  {
    assert TrimStart(s) == s;
    assert IsDigit(s[0]) && (|s| >= 2 ==> IsDigit(s[1]));
    assert !(s[0] == '-' || s[0] == '+');
    assert !(|s| >= 2 && s[0] == '0' && (s[1] == 'x' || s[1] == 'X'));
    DigitRunAll(s);
    assert s[..|s|] == s;
  }

  /// Joining one-digit cells gives a string of as many digits.
  lemma {:induction false} ConcatDigitCells(cells: seq<string>)
    requires forall c :: c in cells ==> IsDigitKey(c)
    ensures |Concat(cells)| == |cells|
    ensures forall i :: 0 <= i < |cells| ==> IsDigit(Concat(cells)[i])
  {
    if cells != [] {
      assert cells[0] in cells;
      assert forall c :: c in cells[1..] ==> c in cells;
      ConcatDigitCells(cells[1..]);
      var rest := Concat(cells[1..]);
      assert Concat(cells) == cells[0] + rest;
      forall i | 0 <= i < |cells|
        ensures IsDigit(Concat(cells)[i])
      {
        if i > 0 {
          assert Concat(cells)[i] == rest[i - 1];
        }
      }
    }
  }
}
