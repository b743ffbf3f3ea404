/** Payload truncation before an observation is sealed (dingdongditch/page_observer.py:
    the truncation loop of `_capture_once`). */
module Truncation {
  import opened Geometry
  import Js = JsonText

  /** What is published, each item with its serialised size. */
  datatype TextBlock = TextBlock(bytes: nat)
  datatype Related = Related(relationship: Relationship, bytes: nat)
  datatype Captured = Captured(element: Element, bytes: nat)

  /** The three lists that can be cut, the "truncated" flag, and the hash field. */
  datatype Payload = Payload(
    text: seq<TextBlock>,
    relationships: seq<Related>,
    elements: seq<Captured>,
    truncated: bool,
    hash: string)

  function TextBytes(t: TextBlock): nat { t.bytes }
  function RelationshipBytes(r: Related): nat { r.bytes }
  function ElementBytes(e: Captured): nat { e.bytes }

  function Sum<T>(bytes: T -> nat, items: seq<T>): nat {
    if items == [] then 0 else Sum(bytes, items[..|items| - 1]) + bytes(items[|items| - 1])
  }

  /** A serialised list: brackets, items, and ", " between items. */
  function ListBytes<T>(bytes: T -> nat, items: seq<T>): nat {
    2 + Sum(bytes, items) + if items == [] then 0 else 2 * (|items| - 1)
  }

  /** The serialised size; `fixed` is the size of everything that is never cut. */
  function Size(fixed: nat, p: Payload): nat {
    fixed
    + (if p.truncated then |"true"| else |"false"|)
    + |p.hash|
    + ListBytes(TextBytes, p.text)
    + ListBytes(RelationshipBytes, p.relationships)
    + ListBytes(ElementBytes, p.elements)
  }

  function Least(a: nat, b: nat): nat {
    if a <= b then a else b
  }

  /** The payload after k removals: text from its end, then relationships, then elements. */
  function Cut(p: Payload, k: nat): Payload {
    var t := Least(k, |p.text|);
    var r := Least(k - t, |p.relationships|);
    var e := Least(k - t - r, |p.elements|);
    p.(text := p.text[..|p.text| - t],
       relationships := p.relationships[..|p.relationships| - r],
       elements := p.elements[..|p.elements| - e],
       truncated := p.truncated || k > 0)
  }

  /** One removal. */
  function Pop(p: Payload): Payload {
    var q := p.(truncated := true);
    if p.text != [] then q.(text := p.text[..|p.text| - 1])
    else if p.relationships != [] then q.(relationships := p.relationships[..|p.relationships| - 1])
    else if p.elements != [] then q.(elements := p.elements[..|p.elements| - 1])
    else q
  }

  function Removable(p: Payload): nat {
    |p.text| + |p.relationships| + |p.elements|
  }

  /** After j removals the payload still exceeds the budget. */
  predicate TooLarge(fixed: nat, p: Payload, budget: nat, j: nat) {
    Size(fixed, Cut(p, j)) > budget
  }

  /** The number of removals is the least that fits, or all there are when none fits. */
  ghost predicate StopsAt(fixed: nat, original: Payload, budget: nat, removed: nat) {
    && removed <= Removable(original)
    && (forall j :: 0 <= j < removed ==> TooLarge(fixed, original, budget, j))
    && (removed < Removable(original) ==> !TooLarge(fixed, original, budget, removed))
  }

  /** What is left of a payload, flagged exactly when it did not fit as it was. */
  ghost predicate IsTruncation(fixed: nat, original: Payload, budget: nat, removed: nat, p: Payload) {
    && StopsAt(fixed, original, budget, removed)
    && p == Cut(original, removed).(truncated := Size(fixed, original) > budget)
  }

  /** The loop. */
  method Truncate(fixed: nat, original: Payload, budget: nat) returns (p: Payload, removed: nat)
    requires !original.truncated && original.hash == ""
    ensures IsTruncation(fixed, original, budget, removed, p)
  {
    p, removed := original, 0;
    CutNothing(original);
    while Size(fixed, p) > budget
      invariant removed <= Removable(original)
      invariant p == Cut(original, removed)
      invariant forall j :: 0 <= j < removed ==> TooLarge(fixed, original, budget, j)
      decreases Removable(original) - removed
    {
      CutOneMore(original, removed);
      var popped;
      p, popped := PopOne(p);
      if !popped {
        break;
      }
      removed := removed + 1;
    }
    assert removed > 0 ==> TooLarge(fixed, original, budget, 0);
  }

  /** The body of the loop: the flag is set, and one item is removed if there is any. */
  method PopOne(p: Payload) returns (q: Payload, popped: bool)
    ensures q == Pop(p) && (popped <==> Removable(p) > 0)
  {
    q, popped := p.(truncated := true), true;
    if p.text != [] {
      q := q.(text := p.text[..|p.text| - 1]);
    } else if p.relationships != [] {
      q := q.(relationships := p.relationships[..|p.relationships| - 1]);
    } else if p.elements != [] {
      q := q.(elements := p.elements[..|p.elements| - 1]);
    } else {
      popped := false;
    }
  }

  lemma CutNothing(p: Payload)
    ensures Cut(p, 0) == p
  {
  }

  lemma CutOneMore(p: Payload, k: nat)
    requires k <= Removable(p)
    ensures k < Removable(p) ==>
              Cut(p, k + 1) == Pop(Cut(p, k))
    ensures k < Removable(p) ==>
              Cut(p, k).text != [] || Cut(p, k).relationships != [] || Cut(p, k).elements != []
    ensures k == Removable(p) ==>
              Cut(p, k).text == [] && Cut(p, k).relationships == [] && Cut(p, k).elements == []
  {
    if k < |p.text| {
      assert p.text[..|p.text| - k][..|p.text| - k - 1] == p.text[..|p.text| - (k + 1)];
    } else if k < |p.text| + |p.relationships| {
      var n := |p.relationships| - (k - |p.text|);
      assert p.relationships[..n][..n - 1] == p.relationships[..n - 1];
    } else if k < Removable(p) {
      var n := |p.elements| - (k - |p.text| - |p.relationships|);
      assert p.elements[..n][..n - 1] == p.elements[..n - 1];
    }
  }

  /** What is left is a prefix of each list, text goes before relationships, and
      relationships before elements. */
  lemma CutsInOrder(p: Payload, k: nat)
    ensures var q := Cut(p, k);
            && q.text <= p.text && q.relationships <= p.relationships && q.elements <= p.elements
            && (|q.relationships| < |p.relationships| ==> q.text == [])
            && (|q.elements| < |p.elements| ==> q.text == [] && q.relationships == [])
            && (k <= Removable(p) ==> Removable(q) == Removable(p) - k)
  {
  }

  // ---------------------------------------------------------------------------
  // Relationships and the elements they name

  function Bare(captured: seq<Captured>): (r: seq<Element>)
    ensures |r| == |captured| && forall i :: 0 <= i < |r| ==> r[i] == captured[i].element
  {
    seq(|captured|, i requires 0 <= i < |captured| => captured[i].element)
  }

  function Sized(relationships: seq<Relationship>, bytes: Relationship -> nat): (r: seq<Related>)
    ensures |r| == |relationships|
    ensures forall i :: 0 <= i < |r| ==> r[i] == Related(relationships[i], bytes(relationships[i]))
  {
    seq(|relationships|, i requires 0 <= i < |relationships| => Related(relationships[i], bytes(relationships[i])))
  }

  /** The payload of a capture before truncation: its relationships are those computed from its
      elements. */
  function Assemble(text: seq<TextBlock>, elements: seq<Captured>, limit: real, k: nat, bytes: Relationship -> nat): Payload {
    Payload(text, Sized(Relationships(Bare(elements), limit, k), bytes), elements, false, "")
  }

  ghost predicate Published(p: Payload, id: string) {
    exists j :: 0 <= j < |p.elements| && p.elements[j].element.id == id
  }

  ghost predicate NamesOnlyPublished(p: Payload) {
    forall r :: r in p.relationships ==> Published(p, r.relationship.source) && Published(p, r.relationship.target)
  }

  lemma ListedIsPublished(p: Payload, id: string)
    requires Lists(Bare(p.elements), id)
    ensures Published(p, id)
  {
    var e :| e in Bare(p.elements) && e.id == id;
    var j :| 0 <= j < |p.elements| && Bare(p.elements)[j] == e;
    assert p.elements[j].element.id == id;
  }

  lemma AssembledNamesOnlyPublished(text: seq<TextBlock>, elements: seq<Captured>, limit: real, k: nat,
                                    bytes: Relationship -> nat)
    ensures NamesOnlyPublished(Assemble(text, elements, limit, k, bytes))
  {
    var p := Assemble(text, elements, limit, k, bytes);
    var related := Relationships(Bare(elements), limit, k);
    forall r | r in p.relationships
      ensures Published(p, r.relationship.source) && Published(p, r.relationship.target)
    {
      var i :| 0 <= i < |related| && p.relationships[i] == r;
      assert r.relationship == related[i] && related[i] in related;
      RelationshipsNameElements(Bare(elements), limit, k, r.relationship);
      ListedIsPublished(p, r.relationship.source);
      ListedIsPublished(p, r.relationship.target);
    }
  }

  /** Cutting keeps references: a relationship is left only while every element is. */
  lemma CuttingKeepsReferences(p: Payload, removed: nat)
    requires NamesOnlyPublished(p)
    ensures NamesOnlyPublished(Cut(p, removed))
  {
    CutsInOrder(p, removed);
    var q := Cut(p, removed);
    forall r | r in q.relationships
      ensures Published(q, r.relationship.source) && Published(q, r.relationship.target)
    {
      assert q.elements == p.elements && r in p.relationships;
      assert Published(p, r.relationship.source) && Published(p, r.relationship.target);
    }
  }

  /** Whatever was captured and however much is cut, every published relationship names two
      published elements. */
  lemma ReferencesSurviveTruncation(text: seq<TextBlock>, elements: seq<Captured>, limit: real, k: nat,
                                    bytes: Relationship -> nat, fixed: nat, budget: nat, removed: nat, p: Payload)
    requires IsTruncation(fixed, Assemble(text, elements, limit, k, bytes), budget, removed, p)
    ensures NamesOnlyPublished(p)
  {
    AssembledNamesOnlyPublished(text, elements, limit, k, bytes);
    CuttingKeepsReferences(Assemble(text, elements, limit, k, bytes), removed);
    var q := Cut(Assemble(text, elements, limit, k, bytes), removed);
    forall r | r in p.relationships
      ensures Published(p, r.relationship.source) && Published(p, r.relationship.target)
    {
      assert r in q.relationships && p.elements == q.elements;
      assert Published(q, r.relationship.source) && Published(q, r.relationship.target);
    }
  }

  /** The elements have different identifiers. */
  ghost predicate DistinctIds(p: Payload) {
    forall i, j :: 0 <= i < j < |p.elements| ==> p.elements[i].element.id != p.elements[j].element.id
  }

  /** What is never cut, such as the focus, regions and overlays, may name elements too: such a
      name stays published if and only if its element does not lie in the tail that is cut. */
  lemma OtherNamesSurviveIff(p: Payload, removed: nat, i: nat)
    requires DistinctIds(p) && i < |p.elements|
    ensures Published(Cut(p, removed), p.elements[i].element.id) <==> i < |Cut(p, removed).elements|
  {
    CutsInOrder(p, removed);
    var q := Cut(p, removed);
    if i < |q.elements| {
      assert q.elements[i].element.id == p.elements[i].element.id;
    }
    assert forall j :: 0 <= j < |q.elements| ==> q.elements[j] == p.elements[j];
  }

  /** So a focus on the last element dangles as soon as one element is cut. */
  lemma FocusCanDangle(p: Payload)
    requires DistinctIds(p) && p.elements != []
    ensures var removed := |p.text| + |p.relationships| + 1;
            !Published(Cut(p, removed), p.elements[|p.elements| - 1].element.id)
  {
    OtherNamesSurviveIff(p, |p.text| + |p.relationships| + 1, |p.elements| - 1);
  }

  // ---------------------------------------------------------------------------
  // Sizes

  /** The length of a character in UTF-8. */
  function CharBytes(c: char): nat {
    if (c as int) < 0x80 then 1 else if (c as int) < 0x800 then 2 else if (c as int) < 0x10000 then 3 else 4
  }

  function Bytes(s: string): nat {
    if s == "" then 0 else CharBytes(s[0]) + Bytes(s[1..])
  }

  lemma {:induction false} BytesConcat(a: string, b: string)
    ensures Bytes(a + b) == Bytes(a) + Bytes(b)
  {
    if a == "" {
      assert a + b == b;
    } else {
      assert (a + b)[1..] == a[1..] + b;
      BytesConcat(a[1..], b);
    }
  }

  function JsonBytes(v: Js.Json): nat {
    Bytes(Js.Dump(v))
  }

  function SumFrom(items: seq<Js.Json>, k: nat): nat
    requires k <= |items|
    decreases |items| - k
  {
    if k == |items| then 0 else JsonBytes(items[k]) + SumFrom(items, k + 1)
  }

  lemma {:induction false} SumIsSumFrom(items: seq<Js.Json>, k: nat)
    requires k <= |items|
    ensures Sum(JsonBytes, items[..k]) + SumFrom(items, k) == SumFrom(items, 0)
  {
    if k > 0 {
      SumIsSumFrom(items, k - 1);
      assert items[..k][..k - 1] == items[..k - 1];
    }
  }

  lemma {:induction false} ItemsBytes(v: Js.Json, k: nat)
    requires v.Array? && k < |v.items|
    ensures Bytes(Js.DumpItems(v, k)) == SumFrom(v.items, k) + 2 * (|v.items| - k - 1) + 1
    decreases |v.items| - k
  {
    var item := Js.Dump(v.items[k]);
    if k + 1 == |v.items| {
      BytesConcat(item, [']']);
      assert Bytes([']']) == 1 by {
        assert [']'][1..] == "";
      }
    } else {
      ItemsBytes(v, k + 1);
      var more := Js.DumpItems(v, k + 1);
      BytesConcat(item, [',', ' '] + more);
      BytesConcat([',', ' '], more);
      assert Bytes([',', ' ']) == 2 by {
        assert [',', ' '][1..] == [' '] && [' '][1..] == "";
      }
    }
  }

  /** The size of a list is that of its JSON text in UTF-8: brackets, items and separators. */
  lemma ListBytesAreTextBytes(items: seq<Js.Json>)
    ensures ListBytes(JsonBytes, items) == Bytes(Js.Dump(Js.Array(items)))
  {
    var v := Js.Array(items);
    if items == [] {
      assert "[]"[1..] == "]" && "]"[1..] == "";
      assert Bytes("]") == 1;
    } else {
      ItemsBytes(v, 0);
      BytesConcat(['['], Js.DumpItems(v, 0));
      assert Bytes(['[']) == 1 by {
        assert ['['][1..] == "";
      }
      SumIsSumFrom(items, |items|);
      assert items[..|items|] == items;
    }
  }

  lemma DroppingLast<T>(bytes: T -> nat, items: seq<T>)
    requires items != []
    ensures ListBytes(bytes, items[..|items| - 1]) <= ListBytes(bytes, items)
  {
  }

  /** Each further removal makes the payload no larger, so the first payload that fits is the
      fullest one that does. */
  lemma CuttingShrinks(fixed: nat, p: Payload, k: nat)
    requires k < Removable(p)
    ensures Size(fixed, Cut(p, k + 1)) <= Size(fixed, Cut(p, k))
  {
    CutOneMore(p, k);
    var q := Cut(p, k);
    if q.text != [] {
      DroppingLast(TextBytes, q.text);
    } else if q.relationships != [] {
      DroppingLast(RelationshipBytes, q.relationships);
    } else {
      DroppingLast(ElementBytes, q.elements);
    }
  }

  /** Sealing writes a 64-character digest into the empty hash field. */
  function Seal(p: Payload, digest: string): Payload {
    p.(hash := digest)
  }

  lemma SealingCosts64(fixed: nat, p: Payload, digest: string)
    requires p.hash == "" && |digest| == 64
    ensures Size(fixed, Seal(p, digest)) == Size(fixed, p) + 64
  {
  }

  lemma {:induction false} CuttingMoreShrinks(fixed: nat, p: Payload, j: nat, k: nat)
    requires j <= k <= Removable(p)
    ensures Size(fixed, Cut(p, k)) <= Size(fixed, Cut(p, j))
    decreases k - j
  {
    if j < k {
      CuttingMoreShrinks(fixed, p, j, k - 1);
      CuttingShrinks(fixed, p, k - 1);
    }
  }

  /** Some number of removals gives a payload that fits, but not by the 64 bytes that sealing
      will add. */
  ghost predicate FitsTooTightly(fixed: nat, original: Payload, budget: nat, j: nat) {
    budget - 64 < Size(fixed, Cut(original, j)) <= budget
  }

  /** All that can be removed is removed. */
  function Emptied(p: Payload): Payload {
    Cut(p, Removable(p)).(truncated := true)
  }

  /** The published payload is within budget exactly when the payload without its lists and
      with its hash would be, and no number of removals fits too tightly. It is more than 64
      bytes over exactly when even the payload without its lists does not fit before sealing. */
  lemma PublishedFitsIff(fixed: nat, original: Payload, budget: nat, removed: nat, p: Payload, digest: string)
    requires !original.truncated && original.hash == "" && |digest| == 64
    requires IsTruncation(fixed, original, budget, removed, p)
    ensures Size(fixed, Seal(p, digest)) <= budget <==>
            && Size(fixed, Cut(original, Removable(original))) + 64 <= budget
            && forall j :: 0 <= j <= Removable(original) ==> !FitsTooTightly(fixed, original, budget, j)
    ensures Size(fixed, Seal(p, digest)) <= budget + 64 <==> Size(fixed, Emptied(original)) <= budget
  {
    var all := Removable(original);
    SealingCosts64(fixed, p, digest);
    CutNothing(original);
    CuttingMoreShrinks(fixed, original, removed, all);
    FlagSaysWhetherCut(fixed, original, budget, removed, p);
    if Size(fixed, Cut(original, removed)) <= budget {
      assert p == Cut(original, removed);
      forall j | 0 <= j <= all
        ensures FitsTooTightly(fixed, original, budget, j) ==> FitsTooTightly(fixed, original, budget, removed)
      {
        if j < removed {
          assert TooLarge(fixed, original, budget, j);
        } else {
          CuttingMoreShrinks(fixed, original, removed, j);
        }
      }
      assert Size(fixed, Seal(p, digest)) <= budget <==> !FitsTooTightly(fixed, original, budget, removed);
    } else {
      assert removed == all;
    }
  }

  /** The flag is that of the cut payload, except when nothing could be cut. */
  lemma FlagSaysWhetherCut(fixed: nat, original: Payload, budget: nat, removed: nat, p: Payload)
    requires !original.truncated && IsTruncation(fixed, original, budget, removed, p)
    ensures removed > 0 || Size(fixed, original) <= budget ==> p == Cut(original, removed)
    ensures removed == 0 && Size(fixed, original) > budget ==> Removable(original) == 0 && p == Emptied(original)
    ensures Size(fixed, Emptied(original)) <= Size(fixed, Cut(original, Removable(original)))
  {
    CutNothing(original);
    assert removed > 0 ==> TooLarge(fixed, original, budget, 0);
    assert removed == 0 && Size(fixed, original) > budget ==> TooLarge(fixed, original, budget, 0);
  }

  /** So every payload that fits its budget exactly is published 64 bytes over it, uncut. */
  lemma SealedPayloadCanExceedBudget(fixed: nat, original: Payload, digest: string)
    requires !original.truncated && original.hash == "" && |digest| == 64
    ensures var budget := Size(fixed, original);
            && IsTruncation(fixed, original, budget, 0, original)
            && Size(fixed, Seal(original, digest)) == budget + 64
  {
    CutNothing(original);
    SealingCosts64(fixed, original, digest);
  }
}
