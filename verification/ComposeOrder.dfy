/** Composition does not depend on the order of inventories, messages or signals. */
module ComposeOrder {
  import opened SortedLists
  import opened Compose

  /** A message with its signals in no particular order. */
  datatype Shape = Shape(key: int, frame: Message, signals: multiset<Signal>)

  function ShapeOf(entry: Entry): Shape {
    Shape(entry.key, entry.message.(signals := []), multiset(entry.message.signals))
  }

  function ShapeKey(shape: Shape): int { shape.key }

  function ShapeId(shape: Shape): int { shape.frame.id }

  /** The same messages, in any order, each with its signals in any order. */
  ghost predicate Rearranged(a: seq<Entry>, b: seq<Entry>) {
    multiset(Mapped(a, ShapeOf)) == multiset(Mapped(b, ShapeOf))
  }

  /** A field identity is built from its source, its wire identity and its name. */
  predicate IdsNameOneSignal(signals: seq<Signal>) {
    forall x, y :: x in signals && y in signals && x.id == y.id ==> x.name == y.name && x.source == y.source
  }

  /** Message identities are unique, and so are the field identities inside one message. */
  predicate IdsAreSound(entries: seq<Entry>) {
    DistinctKeys(entries, MessageId) && forall e :: e in entries ==> DistinctKeys(e.message.signals, IdOf)
  }

  /** The occurrences of each identity come in the same order. */
  ghost predicate SameOccurrences(a: seq<Signal>, b: seq<Signal>) {
    forall id :: OccurAlike(a, b, id)
  }

  predicate OccurAlike(a: seq<Signal>, b: seq<Signal>, id: int) {
    At(a, id, IdOf) == At(b, id, IdOf)
  }

  lemma {:induction false} MergeIdsIgnoresOrder(a: seq<Signal>, b: seq<Signal>, ids: seq<int>)
    requires SameOccurrences(a, b) && Inhabited(a, ids, IdOf) && Inhabited(b, ids, IdOf)
    ensures MergeIds(a, ids) == MergeIds(b, ids)
  {
    if ids != [] {
      MergeIdsIgnoresOrder(a, b, ids[..|ids| - 1]);
      assert OccurAlike(a, b, ids[|ids| - 1]);
    }
  }

  /** Only the order among the occurrences of one identity can show: the first one's details survive. */
  lemma FieldsIgnoreOrder(a: seq<Signal>, b: seq<Signal>)
    requires multiset(a) == multiset(b) && SameOccurrences(a, b)
    ensures ComposeFields(a) == ComposeFields(b)
  {
    SortedKeysIgnoreOrder(a, b, IdOf);
    SortedKeysAreTheKeys(a, IdOf);
    SortedKeysAreTheKeys(b, IdOf);
    MergeIdsIgnoresOrder(a, b, SortedKeys(a, IdOf));
  }

  /** One message holds each identity at most once, so its signals may come in any order. */
  lemma OneMessageOccursAlike(a: seq<Signal>, b: seq<Signal>, id: int)
    requires multiset(a) == multiset(b) && DistinctKeys(a, IdOf)
    ensures OccurAlike(a, b, id)
  {
    var x, y := At(a, id, IdOf), At(b, id, IdOf);
    AtIgnoresOrder(a, b, id, IdOf);
    EmptyTogether(x, y);
    AtMostOne(a, id, IdOf);
    if x != [] {
      assert x == [x[0]] && y == [y[0]];
      assert x[0] in multiset(y);
    }
  }

  /** The same fragments up to the order of their signals. */
  ghost predicate SameShapes(a: seq<Entry>, b: seq<Entry>) {
    Mapped(a, ShapeOf) == Mapped(b, ShapeOf)
  }

  lemma ShapeAt(a: seq<Entry>, b: seq<Entry>, i: nat)
    requires SameShapes(a, b) && i < |a|
    ensures |a| == |b| && ShapeOf(a[i]) == ShapeOf(b[i])
  {
    assert |Mapped(a, ShapeOf)| == |Mapped(b, ShapeOf)|;
    assert Mapped(a, ShapeOf)[i] == Mapped(b, ShapeOf)[i];
  }

  lemma SameShapesPart(a: seq<Entry>, b: seq<Entry>, i: nat, j: nat)
    requires SameShapes(a, b) && i <= j <= |a|
    ensures |a| == |b| && SameShapes(a[i..j], b[i..j])
  {
    assert |Mapped(a, ShapeOf)| == |Mapped(b, ShapeOf)|;
    assert Mapped(a[i..j], ShapeOf) == Mapped(a, ShapeOf)[i..j];
    assert Mapped(b[i..j], ShapeOf) == Mapped(b, ShapeOf)[i..j];
  }

  predicate EachDistinct(entries: seq<Entry>) {
    forall e :: e in entries ==> DistinctKeys(e.message.signals, IdOf)
  }

  lemma {:induction false} SameSignals(a: seq<Entry>, b: seq<Entry>)
    requires SameShapes(a, b)
    ensures |a| == |b| && multiset(SignalsOf(a)) == multiset(SignalsOf(b))
  {
    if a == [] {
      assert |Mapped(a, ShapeOf)| == |Mapped(b, ShapeOf)|;
    } else {
      var n := |a| - 1;
      ShapeAt(a, b, n);
      SameShapesPart(a, b, 0, n);
      SameSignals(a[..n], b[..n]);
    }
  }

  /** Fragments in one order list the occurrences of each identity in one order. */
  lemma {:induction false} FragmentsOccurAlike(a: seq<Entry>, b: seq<Entry>, id: int)
    requires SameShapes(a, b) && EachDistinct(a)
    ensures OccurAlike(SignalsOf(a), SignalsOf(b), id)
  {
    if a == [] {
      assert |Mapped(a, ShapeOf)| == |Mapped(b, ShapeOf)|;
    } else {
      var n := |a| - 1;
      ShapeAt(a, b, n);
      SameShapesPart(a, b, 0, n);
      FragmentsOccurAlike(a[..n], b[..n], id);
      OneMessageOccursAlike(a[n].message.signals, b[n].message.signals, id);
      AtOfSum(SignalsOf(a[..n]), a[n].message.signals, id, IdOf);
      AtOfSum(SignalsOf(b[..n]), b[n].message.signals, id, IdOf);
    }
  }

  lemma {:induction false} SameLengths(representative: Message, a: seq<Entry>, b: seq<Entry>)
    requires SameShapes(a, b)
    ensures LengthConflict(representative, a) == LengthConflict(representative, b)
  {
    if a == [] {
      assert |Mapped(a, ShapeOf)| == |Mapped(b, ShapeOf)|;
    } else {
      ShapeAt(a, b, 0);
      SameShapesPart(a, b, 1, |a|);
      SameLengths(representative, a[1..], b[1..]);
    }
  }

  lemma {:induction false} LengthIsEnough(p: Message, q: Message, others: seq<Entry>)
    requires p.length == q.length
    ensures LengthConflict(p, others) == LengthConflict(q, others)
  {
    if others != [] {
      LengthIsEnough(p, q, others[1..]);
    }
  }

  lemma {:induction false} SameMessageSpans(a: seq<Entry>, b: seq<Entry>)
    requires SameShapes(a, b)
    ensures |a| == |b| && MessageSpans(a) == MessageSpans(b)
  {
    if a == [] {
      assert |Mapped(a, ShapeOf)| == |Mapped(b, ShapeOf)|;
    } else {
      var n := |a| - 1;
      ShapeAt(a, b, n);
      SameShapesPart(a, b, 0, n);
      SameMessageSpans(a[..n], b[..n]);
    }
  }

  lemma SameMessage(a: seq<Entry>, b: seq<Entry>, fields: seq<Compose.Field>)
    requires a != [] && SameShapes(a, b)
    ensures |a| == |b| && MessageOf(a, fields) == MessageOf(b, fields)
    ensures MessageAliases(a[0].message.id, a) == MessageAliases(b[0].message.id, b)
  {
    ShapeAt(a, b, 0);
    SameMessageSpans(a, b);
    forall i | 0 <= i < |a|
      ensures ShapeOf(a[i]) == ShapeOf(b[i])
    {
      ShapeAt(a, b, i);
    }
    assert MessageOf(a, fields).unsupported == MessageOf(b, fields).unsupported;
  }

  lemma SameOutcome(a: seq<Entry>, b: seq<Entry>)
    requires a != [] && SameShapes(a, b) && EachDistinct(a)
    ensures b != [] && ComposeKey(a) == ComposeKey(b)
  {
    ShapeAt(a, b, 0);
    SameShapesPart(a, b, 1, |a|);
    SameLengths(a[0].message, a[1..], b[1..]);
    LengthIsEnough(a[0].message, b[0].message, b[1..]);
    SameSignals(a, b);
    forall id
      ensures OccurAlike(SignalsOf(a), SignalsOf(b), id)
    {
      FragmentsOccurAlike(a, b, id);
    }
    FieldsIgnoreOrder(SignalsOf(a), SignalsOf(b));
    var fields := ComposeFields(SignalsOf(a));
    if fields.Composed? {
      SameMessage(a, b, fields.value.fields);
    }
  }

  lemma SameFragments(a: seq<Entry>, b: seq<Entry>, key: int)
    requires Rearranged(a, b) && DistinctKeys(a, MessageId)
    ensures SameShapes(Fragments(a, key), Fragments(b, key))
  {
    var x, y := At(a, key, KeyOf), At(b, key, KeyOf);
    MappedAt(a, key, ShapeOf, KeyOf, ShapeKey);
    MappedAt(b, key, ShapeOf, KeyOf, ShapeKey);
    AtIgnoresOrder(Mapped(a, ShapeOf), Mapped(b, ShapeOf), key, ShapeKey);
    AtStaysDistinct(a, key, KeyOf, MessageId);
    MappedSort(x, ShapeOf, MessageId, ShapeId);
    MappedSort(y, ShapeOf, MessageId, ShapeId);
    assert DistinctKeys(Mapped(x, ShapeOf), ShapeId);
    SortIgnoresOrder(Mapped(x, ShapeOf), Mapped(y, ShapeOf), ShapeId);
  }

  lemma FragmentsAreDistinct(a: seq<Entry>, key: int)
    requires IdsAreSound(a)
    ensures EachDistinct(Fragments(a, key))
  {
    SortByOrders(At(a, key, KeyOf), MessageId);
    SameMembers(Fragments(a, key), At(a, key, KeyOf));
  }

  lemma KeyIgnoresOrder(a: seq<Entry>, b: seq<Entry>, key: int)
    requires Rearranged(a, b) && IdsAreSound(a) && At(a, key, KeyOf) != []
    ensures At(b, key, KeyOf) != [] && ComposeKey(Fragments(a, key)) == ComposeKey(Fragments(b, key))
  {
    SameFragments(a, b, key);
    FragmentsAreDistinct(a, key);
    SameOutcome(Fragments(a, key), Fragments(b, key));
  }

  lemma KeysIgnoreOrder(a: seq<Entry>, b: seq<Entry>, keys: seq<int>)
    requires Rearranged(a, b) && IdsAreSound(a)
    requires Inhabited(a, keys, KeyOf) && Inhabited(b, keys, KeyOf)
    ensures OutcomesOf(a, keys) == OutcomesOf(b, keys)
  {
    forall i | 0 <= i < |keys|
      ensures OutcomesOf(a, keys)[i] == OutcomesOf(b, keys)[i]
    {
      KeyIgnoresOrder(a, b, keys[i]);
    }
  }

  /** The same messages and the same aliases, or the same conflict, in any order of the input. */
  lemma CompositionIgnoresOrder(a: seq<Entry>, b: seq<Entry>)
    requires Rearranged(a, b) && IdsAreSound(a)
    ensures Compose.Compose(a) == Compose.Compose(b)
  {
    MappedAt(a, 0, ShapeOf, KeyOf, ShapeKey);
    MappedAt(b, 0, ShapeOf, KeyOf, ShapeKey);
    SortedKeysIgnoreOrder(Mapped(a, ShapeOf), Mapped(b, ShapeOf), ShapeKey);
    SortedKeysAreTheKeys(a, KeyOf);
    SortedKeysAreTheKeys(b, KeyOf);
    KeysIgnoreOrder(a, b, SortedKeys(a, KeyOf));
  }
}
