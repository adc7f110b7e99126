/** `flattenFields` (DynamicQuoteForm.tsx): the fields and groups of a node list,
    with every section replaced, in place, by its own flattened children. */
module Flatten {
  import opened Schema

  /** The flattened list, as a specification. */
  function Flat(ns: seq<Node>): (r: seq<Node>)
    ensures forall n :: n in r ==> !n.SectionN?
    decreases ns
  {
    if ns == [] then [] else FlatOne(ns[0]) + Flat(ns[1..])
  }

  function FlatOne(n: Node): (r: seq<Node>)
    ensures forall x :: x in r ==> !x.SectionN?
    decreases n
  {
    match n
    case SectionN(_, _, ch) => Flat(ch)
    case _ => [n]
  }

  /** Flattening is compositional: document order is kept across a split of the list. */
  lemma {:induction false} FlatAppend(a: seq<Node>, b: seq<Node>)
    ensures Flat(a + b) == Flat(a) + Flat(b)
  {
    if a != [] {
      assert (a + b)[0] == a[0];
      assert (a + b)[1..] == a[1..] + b;
      FlatAppend(a[1..], b);
    } else {
      assert a + b == b;
    }
  }

  /** A list without sections is its own flattening. */
  lemma {:induction false} FlatNoSections(ns: seq<Node>)
    requires forall n :: n in ns ==> !n.SectionN?
    ensures Flat(ns) == ns
  {
    if ns != [] {
      assert ns[0] in ns;
      assert forall n :: n in ns[1..] ==> n in ns;
      FlatNoSections(ns[1..]);
      assert ns == [ns[0]] + ns[1..];
    }
  }

  /** One level of promotion: each section is replaced by its direct children. */
  function PromoteSections(ns: seq<Node>): seq<Node> {
    if ns == [] then []
    else (if ns[0].SectionN? then ns[0].children else [ns[0]]) + PromoteSections(ns[1..])
  }

  /** When sections do not nest (as the declared `Section` type promises), the
      flattened list is exactly the non-section nodes with each section's children
      promoted in its place. */
  lemma {:induction false} FlatIsPromotion(ns: seq<Node>)
    requires SectionsFlat(ns)
    ensures Flat(ns) == PromoteSections(ns)
  {
    if ns != [] {
      if ns[0].SectionN? {
        var ch := ns[0].children;
        assert forall n :: n in ch ==> !n.SectionN? by {
          forall n | n in ch ensures !n.SectionN? {
            var j :| 0 <= j < |ch| && ch[j] == n;
          }
        }
        FlatNoSections(ch);
      }
      assert SectionsFlat(ns[1..]) by {
        forall i | 0 <= i < |ns[1..]| && ns[1..][i].SectionN?
          ensures forall j :: 0 <= j < |ns[1..][i].children| ==> !ns[1..][i].children[j].SectionN?
        {
          assert ns[1..][i] == ns[i + 1];
        }
      }
      FlatIsPromotion(ns[1..]);
    }
  }

  /** The source's loop: push each field or group, and the recursively flattened
      children of each section. */
  method FlattenFields(fields: seq<Node>) returns (result: seq<Node>)
    ensures result == Flat(fields)
    decreases fields
  {
    result := [];
    var i := 0;
    while i < |fields|
      invariant 0 <= i <= |fields|
      invariant result == Flat(fields[..i])
    {
      var item := fields[i];
      if item.SectionN? {
        var inner := FlattenFields(item.children);
        result := result + inner;
      } else {
        result := result + [item];
      }
      FlatAppend(fields[..i], [item]);
      assert fields[..i + 1] == fields[..i] + [item];
      i := i + 1;
    }
    assert fields[..i] == fields;
  }
}
