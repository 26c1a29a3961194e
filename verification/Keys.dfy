/**
 * The derived ordering of structures: fields in order, optional values after absent ones, sequences
 * lexicographically. A structure is compared through the nested key of its fields.
 */
module Keys {
  import opened Machine
  import opened Orders
  import opened Identity

  datatype Key = Num(n: int) | Fields(items: seq<Key>)

  predicate KeyLeq(a: Key, b: Key)
    decreases a, 1
  {
    match (a, b)
    case (Num(x), Num(y)) => x <= y
    case (Num(_), Fields(_)) => true
    case (Fields(_), Num(_)) => false
    case (Fields(s), Fields(t)) => ItemsLeq(s, t)
  }

  predicate ItemsLeq(s: seq<Key>, t: seq<Key>)
    decreases s, 0
  {
    if s == [] then true
    else if t == [] then false
    else if s[0] == t[0] then ItemsLeq(s[1..], t[1..])
    else KeyLeq(s[0], t[0])
  }

  lemma {:induction false} KeyTotal(a: Key, b: Key)
    ensures KeyLeq(a, b) || KeyLeq(b, a)
    ensures KeyLeq(a, b) && KeyLeq(b, a) ==> a == b
    decreases a, 1
  {
    if a.Fields? && b.Fields? {
      ItemsTotal(a.items, b.items);
    }
  }

  lemma {:induction false} ItemsTotal(s: seq<Key>, t: seq<Key>)
    ensures ItemsLeq(s, t) || ItemsLeq(t, s)
    ensures ItemsLeq(s, t) && ItemsLeq(t, s) ==> s == t
    decreases s, 0
  {
    if s != [] && t != [] {
      KeyTotal(s[0], t[0]);
      ItemsTotal(s[1..], t[1..]);
      assert s == [s[0]] + s[1..] && t == [t[0]] + t[1..];
    }
  }

  lemma {:induction false} KeyTransitive(a: Key, b: Key, c: Key)
    requires KeyLeq(a, b) && KeyLeq(b, c)
    ensures KeyLeq(a, c)
    decreases a, 1
  {
    if a.Fields? && b.Fields? && c.Fields? {
      ItemsTransitive(a.items, b.items, c.items);
    }
  }

  lemma {:induction false} ItemsTransitive(s: seq<Key>, t: seq<Key>, u: seq<Key>)
    requires ItemsLeq(s, t) && ItemsLeq(t, u)
    ensures ItemsLeq(s, u)
    decreases s, 0
  {
    if s != [] {
      if s[0] == t[0] == u[0] {
        ItemsTransitive(s[1..], t[1..], u[1..]);
      } else if s[0] != t[0] && t[0] != u[0] {
        KeyTransitive(s[0], t[0], u[0]);
        KeyTotal(s[0], t[0]);
      }
    }
  }

  function KeyOrder(): (Key, Key) -> bool {
    (a: Key, b: Key) => KeyLeq(a, b)
  }

  lemma KeyOrderIsTotal()
    ensures TotalOrder(KeyOrder())
  {
    forall a: Key, b: Key
      ensures KeyOrder()(a, b) || KeyOrder()(b, a)
      ensures KeyOrder()(a, b) && KeyOrder()(b, a) ==> a == b
    {
      KeyTotal(a, b);
    }
    forall a: Key, b: Key, c: Key | KeyOrder()(a, b) && KeyOrder()(b, c)
      ensures KeyOrder()(a, c)
    {
      KeyTransitive(a, b, c);
    }
  }

  // ---- Keys of the basic shapes ----

  function BytesKey(bytes: seq<U8>): Key {
    Fields(seq(|bytes|, i requires 0 <= i < |bytes| => Num(bytes[i])))
  }

  function TextKey(text: string): Key {
    Fields(seq(|text|, i requires 0 <= i < |text| => Num(text[i] as int)))
  }

  lemma BytesKeyInjective(a: seq<U8>, b: seq<U8>)
    requires BytesKey(a) == BytesKey(b)
    ensures a == b
  {
    var x, y := BytesKey(a).items, BytesKey(b).items;
    assert |x| == |a| && |y| == |b|;
    assert forall i :: 0 <= i < |a| ==> x[i] == Num(a[i]) && y[i] == Num(b[i]);
  }

  lemma TextKeyInjective(a: string, b: string)
    requires TextKey(a) == TextKey(b)
    ensures a == b
  {
    var x, y := TextKey(a).items, TextKey(b).items;
    assert |x| == |a| && |y| == |b|;
    assert forall i :: 0 <= i < |a| ==> x[i] == Num(a[i] as int) && y[i] == Num(b[i] as int);
  }

  function UuidLeq(): (Uuid, Uuid) -> bool {
    (a: Uuid, b: Uuid) => KeyLeq(BytesKey(a), BytesKey(b))
  }

  lemma UuidOrderIsTotal()
    ensures TotalOrder(UuidLeq())
  {
    forall a: Uuid, b: Uuid
      ensures UuidLeq()(a, b) || UuidLeq()(b, a)
      ensures UuidLeq()(a, b) && UuidLeq()(b, a) ==> a == b
    {
      KeyTotal(BytesKey(a), BytesKey(b));
      if BytesKey(a) == BytesKey(b) {
        BytesKeyInjective(a, b);
      }
    }
    forall a: Uuid, b: Uuid, c: Uuid | UuidLeq()(a, b) && UuidLeq()(b, c)
      ensures UuidLeq()(a, c)
    {
      KeyTransitive(BytesKey(a), BytesKey(b), BytesKey(c));
    }
  }

  // ---- What the order is ----

  /** At the first difference the first sequence has ended or has the smaller key. */
  ghost predicate DifferAt(s: seq<Key>, t: seq<Key>, i: nat) {
    && i <= |s| && i < |t| && s[..i] == t[..i]
    && (i < |s| ==> s[i] != t[i] && KeyLeq(s[i], t[i]))
  }

  lemma FirstItemsAgree(s: seq<Key>, t: seq<Key>, i: nat)
    requires 0 < i && DifferAt(s, t, i)
    ensures s[0] == t[0]
  {
    assert s[..i][0] == t[..i][0];
  }

  lemma DifferOneLater(s: seq<Key>, t: seq<Key>, i: nat)
    requires s != [] && t != [] && s[0] == t[0]
    ensures DifferAt(s[1..], t[1..], i) <==> DifferAt(s, t, i + 1)
  {
    hide KeyLeq;
    if i < |s| && i < |t| {
      SamePrefix(s, t, i);
    }
  }

  lemma SamePrefix(s: seq<Key>, t: seq<Key>, i: nat)
    requires i < |s| && i < |t| && s[0] == t[0]
    ensures s[1..][..i] == t[1..][..i] <==> s[..i + 1] == t[..i + 1]
  {
    assert s[..i + 1] == [s[0]] + s[1..][..i] && t[..i + 1] == [t[0]] + t[1..][..i];
    assert s[1..][..i] == s[..i + 1][1..] && t[1..][..i] == t[..i + 1][1..];
  }

  /** Sequences of keys are compared at their first difference. */
  lemma {:induction false} ItemsAreLexicographic(s: seq<Key>, t: seq<Key>)
    ensures ItemsLeq(s, t) <==> s == t || exists i: nat :: DifferAt(s, t, i)
    decreases |s|
  {
    if s == [] {
      assert t != [] ==> DifferAt(s, t, 0);
    } else if t != [] {
      if s[0] == t[0] {
        ItemsAreLexicographic(s[1..], t[1..]);
        assert s == [s[0]] + s[1..] && t == [t[0]] + t[1..];
        if i: nat :| DifferAt(s[1..], t[1..], i) {
          DifferOneLater(s, t, i);
        }
        if i: nat :| DifferAt(s, t, i) {
          assert i > 0;
          DifferOneLater(s, t, i - 1);
        }
      } else {
        assert KeyLeq(s[0], t[0]) ==> DifferAt(s, t, 0);
        if i: nat :| DifferAt(s, t, i) {
          if i > 0 {
            FirstItemsAgree(s, t, i);
          }
        }
      }
    }
  }

  /** The byte sequence comes first in bytewise order: a proper prefix, or smaller at the first difference. */
  ghost predicate BytewiseBelow(a: seq<U8>, b: seq<U8>) {
    exists i :: 0 <= i <= |a| && i < |b| && a[..i] == b[..i] && (i < |a| ==> a[i] < b[i])
  }

  ghost predicate TextBelow(a: string, b: string) {
    exists i :: 0 <= i <= |a| && i < |b| && a[..i] == b[..i] && (i < |a| ==> a[i] < b[i])
  }

  lemma BytesPrefix(a: seq<U8>, i: nat)
    requires i <= |a|
    ensures BytesKey(a).items[..i] == BytesKey(a[..i]).items
  {}

  lemma TextPrefix(a: string, i: nat)
    requires i <= |a|
    ensures TextKey(a).items[..i] == TextKey(a[..i]).items
  {}

  lemma BytesKeyInjectiveIf(a: seq<U8>, b: seq<U8>)
    ensures BytesKey(a).items == BytesKey(b).items <==> a == b
  {
    if BytesKey(a).items == BytesKey(b).items {
      BytesKeyInjective(a, b);
    }
  }

  lemma TextKeyInjectiveIf(a: string, b: string)
    ensures TextKey(a).items == TextKey(b).items <==> a == b
  {
    if TextKey(a).items == TextKey(b).items {
      TextKeyInjective(a, b);
    }
  }

  lemma BytesAreBytewise(a: seq<U8>, b: seq<U8>)
    ensures KeyLeq(BytesKey(a), BytesKey(b)) <==> a == b || BytewiseBelow(a, b)
  {
    var x, y := BytesKey(a).items, BytesKey(b).items;
    ItemsAreLexicographic(x, y);
    if BytesKey(a) == BytesKey(b) {
      BytesKeyInjective(a, b);
    }
    forall i: nat | i <= |a| && i <= |b|
      ensures x[..i] == y[..i] <==> a[..i] == b[..i]
    {
      BytesPrefix(a, i);
      BytesPrefix(b, i);
      BytesKeyInjectiveIf(a[..i], b[..i]);
    }
    if i: nat :| DifferAt(x, y, i) {
      assert a[..i] == b[..i];
    }
    if i :| 0 <= i <= |a| && i < |b| && a[..i] == b[..i] && (i < |a| ==> a[i] < b[i]) {
      assert DifferAt(x, y, i);
    }
  }

  lemma TextIsByCharacters(a: string, b: string)
    ensures KeyLeq(TextKey(a), TextKey(b)) <==> a == b || TextBelow(a, b)
  {
    var x, y := TextKey(a).items, TextKey(b).items;
    ItemsAreLexicographic(x, y);
    if TextKey(a) == TextKey(b) {
      TextKeyInjective(a, b);
    }
    forall i: nat | i <= |a| && i <= |b|
      ensures x[..i] == y[..i] <==> a[..i] == b[..i]
    {
      TextPrefix(a, i);
      TextPrefix(b, i);
      TextKeyInjectiveIf(a[..i], b[..i]);
    }
    if i: nat :| DifferAt(x, y, i) {
      assert a[..i] == b[..i];
    }
    if i :| 0 <= i <= |a| && i < |b| && a[..i] == b[..i] && (i < |a| ==> a[i] < b[i]) {
      assert DifferAt(x, y, i);
    }
  }

  /** Identities are ordered by their bytes. */
  lemma IdentitiesAreBytewise(a: Uuid, b: Uuid)
    ensures UuidLeq()(a, b) <==> a == b || BytewiseBelow(a, b)
  {
    hide KeyLeq;
    BytesAreBytewise(a, b);
  }
}
