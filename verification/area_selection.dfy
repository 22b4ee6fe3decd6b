/// The caret arithmetic of `selectInputArea`: which area a click lands in,
/// and the span the helper then selects, computed from the placeholder
/// lengths and the delimiter length alone.
module AreaSelection {
  import opened JsText

  /// Length of the text made of areas `0..i-1`, each followed by the
  /// delimiter: where area `i` starts in the joined placeholder.
  function Prefix(placeholders: seq<string>, delimiterLength: nat, i: nat): nat
    requires i <= |placeholders|
  {
    if i == 0 then 0 else Prefix(placeholders, delimiterLength, i - 1) + |placeholders[i - 1]| + delimiterLength
  }

  datatype Selection = Selection(area: nat, selStart: int, selEnd: int)

  /// The first area from `i` on whose text, with the delimiter after it,
  /// reaches past the caret, with the span selected for it.
  function SelectFrom(placeholders: seq<string>, delimiterLength: nat, caret: nat, i: nat): Option<Selection>
    requires i <= |placeholders|
    decreases |placeholders| - i
  {
    if i == |placeholders| then None
    else if Prefix(placeholders, delimiterLength, i + 1) > caret then
      var start := if i == 0 then 0 else Prefix(placeholders, delimiterLength, i) + delimiterLength - 1;
      Some(Selection(i, start, Prefix(placeholders, delimiterLength, i + 1) - delimiterLength))
    else SelectFrom(placeholders, delimiterLength, caret, i + 1)
  }

  /// The area a caret selects, or `None` when the caret is past every area
  /// (the helper then keeps its area and selection).
  function SelectArea(placeholders: seq<string>, delimiterLength: nat, caret: nat): Option<Selection>
  {
    SelectFrom(placeholders, delimiterLength, caret, 0)
  }

  lemma {:induction false} PrefixMonotone(placeholders: seq<string>, delimiterLength: nat, i: nat, j: nat)
    requires i <= j <= |placeholders|
    ensures Prefix(placeholders, delimiterLength, i) <= Prefix(placeholders, delimiterLength, j)
    decreases j - i
  {
    if i < j {
      PrefixMonotone(placeholders, delimiterLength, i, j - 1);
    }
  }

  /// Area `i` sits at `Prefix(i)` in the placeholder joined with the
  /// delimiter, and the joined text followed by one more delimiter is
  /// `Prefix(|placeholders|)` long.
  lemma {:induction false} PrefixLocatesArea(placeholders: seq<string>, delimiter: string, i: nat)
    requires i < |placeholders|
    ensures var text := JoinWith(placeholders, delimiter);
      var p := Prefix(placeholders, |delimiter|, i);
      p + |placeholders[i]| <= |text| && text[p..p + |placeholders[i]|] == placeholders[i]
      && |text| + |delimiter| == Prefix(placeholders, |delimiter|, |placeholders|)
    decreases |placeholders|
  {
    var text := JoinWith(placeholders, delimiter);
    var rest := placeholders[1..];
    if |placeholders| > 1 {
      assert text == placeholders[0] + delimiter + JoinWith(rest, delimiter);
      PrefixShift(placeholders, |delimiter|, |placeholders|);
      if i > 0 {
        PrefixLocatesArea(rest, delimiter, i - 1);
        PrefixShift(placeholders, |delimiter|, i);
        var p := Prefix(placeholders, |delimiter|, i);
        var q := Prefix(rest, |delimiter|, i - 1);
        assert p == |placeholders[0]| + |delimiter| + q;
        assert text[p..p + |placeholders[i]|] == JoinWith(rest, delimiter)[q..q + |rest[i - 1]|];
      } else {
        PrefixLocatesArea(rest, delimiter, 0);
        assert text[..|placeholders[0]|] == placeholders[0];
      }
    } else {
      assert Prefix(placeholders, |delimiter|, 1) == |placeholders[0]| + |delimiter|;
    }
  }

  /// Dropping the first area shifts every prefix by that area and its
  /// delimiter.
  lemma {:induction false} PrefixShift(placeholders: seq<string>, delimiterLength: nat, i: nat)
    requires 1 <= i <= |placeholders|
    ensures Prefix(placeholders, delimiterLength, i)
         == |placeholders[0]| + delimiterLength + Prefix(placeholders[1..], delimiterLength, i - 1)
    decreases i
  {
    if i > 1 {
      PrefixShift(placeholders, delimiterLength, i - 1);
    }
  }

  lemma {:induction false} SelectFromSpec(placeholders: seq<string>, delimiterLength: nat, caret: nat, i: nat)
    requires i <= |placeholders|
    requires i > 0 ==> Prefix(placeholders, delimiterLength, i) <= caret
    ensures var r := SelectFrom(placeholders, delimiterLength, caret, i);
      (r.None? <==> Prefix(placeholders, delimiterLength, |placeholders|) <= caret)
      && (r.Some? ==>
            var a := r.value.area;
            i <= a < |placeholders|
            && (a > 0 ==> Prefix(placeholders, delimiterLength, a) <= caret)
            && caret < Prefix(placeholders, delimiterLength, a + 1)
            && r.value.selEnd == Prefix(placeholders, delimiterLength, a) + |placeholders[a]|
            && r.value.selStart == if a == 0 then 0 else Prefix(placeholders, delimiterLength, a) + delimiterLength - 1)
    decreases |placeholders| - i
  {
    if i < |placeholders| {
      if Prefix(placeholders, delimiterLength, i + 1) > caret {
        PrefixMonotone(placeholders, delimiterLength, i + 1, |placeholders|);
      } else {
        SelectFromSpec(placeholders, delimiterLength, caret, i + 1);
      }
    }
  }

  /// A caret selects an area exactly when it lies before the end of the
  /// joined text plus one delimiter; the area is the one whose text, with the
  /// delimiter that follows it, contains the caret; the selection ends where
  /// the area's text ends, and starts at 0 for the first area and
  /// `delimiterLength - 1` characters past the area's start for the others
  /// (exactly at the start for a one-character delimiter).
  lemma SelectAreaSpec(placeholders: seq<string>, delimiterLength: nat, caret: nat)
    ensures var r := SelectArea(placeholders, delimiterLength, caret);
      (r.None? <==> Prefix(placeholders, delimiterLength, |placeholders|) <= caret)
      && (r.Some? ==>
            var a := r.value.area;
            a < |placeholders|
            && Prefix(placeholders, delimiterLength, a) <= caret < Prefix(placeholders, delimiterLength, a + 1)
            && r.value.selEnd == Prefix(placeholders, delimiterLength, a) + |placeholders[a]|
            && r.value.selStart == if a == 0 then 0 else Prefix(placeholders, delimiterLength, a) + delimiterLength - 1)
  {
    SelectFromSpec(placeholders, delimiterLength, caret, 0);
  }
}
