/** log/format.go: where the fields of a printed line stand. The padding map holds the
    widest value seen for each key, so lines with the same keys come to stand in columns. */
module LogfmtColumns {
  import opened Logfmt

  function Width(f: Field): nat {
    |Escaped(f.text)|
  }

  // ---------- the padding map ----------

  lemma {:induction false} PaddingInTwoParts(padding: Padding, a: seq<Field>, b: seq<Field>)
    ensures PaddingAfter(padding, a + b) == PaddingAfter(PaddingAfter(padding, a), b)
    decreases |a|
  {
    hide Widen;
    if a == [] {
      assert a + b == b;
    } else {
      assert (a + b)[1..] == a[1..] + b && (a + b)[0] == a[0];
      PaddingInTwoParts(Widen(padding, a[0]), a[1..], b);
    }
  }

  lemma WidenIs(padding: Padding, f: Field, key: string)
    ensures WidthSeen(Widen(padding, f), key)
         == if key == f.key && Width(f) > WidthSeen(padding, key) then Width(f) else WidthSeen(padding, key)
  {
    hide Escaped;
  }

  /** After these fields the map holds, for each key, the widest of what it held before and
      of the values written under the key. */
  lemma {:induction false} PaddingIsWidest(padding: Padding, fields: seq<Field>, key: string)
    ensures var w := WidthSeen(PaddingAfter(padding, fields), key);
            && w >= WidthSeen(padding, key)
            && (forall i :: 0 <= i < |fields| && fields[i].key == key ==> Width(fields[i]) <= w)
            && (w == WidthSeen(padding, key)
                || exists i :: 0 <= i < |fields| && fields[i].key == key && Width(fields[i]) == w)
    decreases |fields|
  {
    hide Widen, Width, WidthSeen;
    if fields != [] {
      var rest, next := fields[1..], Widen(padding, fields[0]);
      WidenIs(padding, fields[0], key);
      PaddingIsWidest(next, rest, key);
      var w := WidthSeen(PaddingAfter(padding, fields), key);
      assert forall i :: 0 < i < |fields| ==> fields[i] == rest[i - 1];
      if w != WidthSeen(next, key) {
        var i :| 0 <= i < |rest| && rest[i].key == key && Width(rest[i]) == w;
        assert fields[i + 1].key == key && Width(fields[i + 1]) == w;
      } else if w != WidthSeen(padding, key) {
        assert fields[0].key == key && Width(fields[0]) == w;
      }
    }
  }

  lemma FirstCell(padding: Padding, fields: seq<Field>)
    requires fields != []
    ensures Width(fields[0]) + Pads(padding, fields)[0] == WidthSeen(Widen(padding, fields[0]), fields[0].key)
    ensures PaddingAfter(padding, fields[..1]) == Widen(padding, fields[0])
  {
    hide Escaped;
    assert fields[..1][1..] == [];
  }

  lemma LaterCell(padding: Padding, fields: seq<Field>, j: nat)
    requires 0 < j < |fields|
    ensures Pads(padding, fields)[j] == Pads(Widen(padding, fields[0]), fields[1..])[j - 1]
    ensures PaddingAfter(padding, fields[..j + 1]) == PaddingAfter(Widen(padding, fields[0]), fields[1..][..j])
  {
    hide Escaped, Widen;
    assert fields[..j + 1][1..] == fields[1..][..j];
  }

  /** A field that is not the last takes the widest value of its key up to then, counting
      its own. */
  lemma {:induction false} CellsArePadded(padding: Padding, fields: seq<Field>, j: nat)
    requires j < |fields|
    ensures Width(fields[j]) + Pads(padding, fields)[j]
         == WidthSeen(PaddingAfter(padding, fields[..j + 1]), fields[j].key)
    decreases |fields|
  {
    hide *;
    if j == 0 {
      FirstCell(padding, fields);
    } else {
      LaterCell(padding, fields, j);
      CellsArePadded(Widen(padding, fields[0]), fields[1..], j - 1);
    }
  }

  // ---------- the line ----------

  /** Where field j begins in the line, with the blank before it. */
  function Offset(fields: seq<Field>, pads: seq<nat>, j: nat, first: bool): nat
    requires j < |fields| == |pads|
    decreases j
  {
    if j == 0 then 0
    else
      (if first then 0 else 1) + |fields[0].key| + 1 + Width(fields[0]) + pads[0]
      + Offset(fields[1..], pads[1..], j - 1, false)
  }

  lemma BehindFront(front: string, rest: string, o: nat)
    requires o <= |rest|
    ensures (front + rest)[|front| + o..] == rest[o..]
  {
  }

  lemma FirstStands(fields: seq<Field>, pads: seq<nat>, first: bool)
    requires 0 < |fields| == |pads|
    ensures (if first then "" else " ") + fields[0].key + "=" + Escaped(fields[0].text) <= Line(fields, pads, first)
    ensures Line(fields, pads, first)[0..] == Line(fields, pads, first)
  {
    hide Escaped;
    var gap := if |fields| == 1 then 0 else pads[0];
    var front := (if first then "" else " ") + fields[0].key + "=" + Escaped(fields[0].text);
    assert CellText(first, fields[0].key, Escaped(fields[0].text), gap) == front + Spaces(gap);
    assert front <= (front + Spaces(gap)) + Line(fields[1..], pads[1..], false);
  }

  /** The key and the value of field j stand there. */
  lemma {:induction false} FieldStands(fields: seq<Field>, pads: seq<nat>, j: nat, first: bool)
    requires j < |fields| == |pads|
    ensures Offset(fields, pads, j, first) <= |Line(fields, pads, first)|
    ensures (if first && j == 0 then "" else " ") + fields[j].key + "=" + Escaped(fields[j].text)
         <= Line(fields, pads, first)[Offset(fields, pads, j, first)..]
    decreases j
  {
    hide Escaped;
    var line := Line(fields, pads, first);
    if j == 0 {
      FirstStands(fields, pads, first);
    } else {
      var rest := Line(fields[1..], pads[1..], false);
      var cell := CellText(first, fields[0].key, Escaped(fields[0].text), pads[0]);
      assert line == cell + rest;
      FieldStands(fields[1..], pads[1..], j - 1, false);
      var o := Offset(fields[1..], pads[1..], j - 1, false);
      assert Offset(fields, pads, j, first) == |cell| + o;
      BehindFront(cell, rest, o);
    }
  }

  lemma {:induction false} SameOffsets(a: seq<Field>, pa: seq<nat>, b: seq<Field>, pb: seq<nat>, j: nat, first: bool)
    requires |a| == |pa| == |b| == |pb| && j < |a|
    requires forall i :: 0 <= i < j ==> |a[i].key| == |b[i].key| && Width(a[i]) + pa[i] == Width(b[i]) + pb[i]
    ensures Offset(a, pa, j, first) == Offset(b, pb, j, first)
    decreases j
  {
    hide Width;
    if j > 0 {
      SameOffsets(a[1..], pa[1..], b[1..], pb[1..], j - 1, false);
    }
  }

  ghost predicate DistinctKeys(fields: seq<Field>) {
    forall i, j :: 0 <= i < j < |fields| ==> fields[i].key != fields[j].key
  }

  /** A cell of a line whose keys differ takes what the map holds for its key afterwards. */
  lemma CellOfDistinct(padding: Padding, fields: seq<Field>, j: nat)
    requires j < |fields| && DistinctKeys(fields)
    ensures Width(fields[j]) + Pads(padding, fields)[j] == WidthSeen(PaddingAfter(padding, fields), fields[j].key)
  {
    hide Width, WidthSeen, PaddingAfter, Pads;
    CellsArePadded(padding, fields, j);
    var before, after := fields[..j + 1], fields[j + 1..];
    assert fields == before + after;
    PaddingInTwoParts(padding, before, after);
    PaddingIsWidest(PaddingAfter(padding, before), after, fields[j].key);
  }

  lemma NoWider(next: Padding, b: seq<Field>, a: seq<Field>, i: nat)
    requires i < |a| == |b| && forall k :: 0 <= k < |a| ==> a[k].key == b[k].key
    requires forall k :: 0 <= k < |a| ==> Width(b[k]) <= WidthSeen(next, a[k].key)
    ensures WidthSeen(PaddingAfter(next, b), a[i].key) == WidthSeen(next, a[i].key)
  {
    hide Width, WidthSeen, PaddingAfter;
    PaddingIsWidest(next, b, a[i].key);
  }

  /** A line printed after one with the same keys, none of whose values is wider than what
      was seen for its key, has every field in the same column. */
  lemma ColumnsAlign(padding: Padding, a: seq<Field>, b: seq<Field>, j: nat)
    requires |a| == |b| && j < |a| && DistinctKeys(a) && forall i :: 0 <= i < |a| ==> a[i].key == b[i].key
    requires forall i :: 0 <= i < |a| ==> Width(b[i]) <= WidthSeen(PaddingAfter(padding, a), a[i].key)
    ensures Offset(a, Pads(padding, a), j, true) == Offset(b, Pads(PaddingAfter(padding, a), b), j, true)
  {
    var next := PaddingAfter(padding, a);
    hide Width, WidthSeen, PaddingAfter, Pads, Offset;
    forall i | 0 <= i < j
      ensures |a[i].key| == |b[i].key| && Width(a[i]) + Pads(padding, a)[i] == Width(b[i]) + Pads(next, b)[i]
    {
      CellOfDistinct(padding, a, i);
      CellOfDistinct(next, b, i);
      PaddingIsWidest(next, b, a[i].key);
      NoWider(next, b, a, i);
    }
    SameOffsets(a, Pads(padding, a), b, Pads(next, b), j, true);
  }
}
