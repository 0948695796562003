/** What a composition says about each definition that went into it, and when a whole composition succeeds. */
module ComposeOutcome {
  import opened SortedLists
  import opened Compose
  import opened ComposeOrder
  import opened ComposeLaws

  // ---------------------------------------------------------------- spans

  lemma {:induction false} InAllSpans(signals: seq<Signal>, span: int)
    ensures span in AllSpans(signals) <==> exists x :: x in signals && span in x.spans
  {
    if signals != [] {
      var n := |signals| - 1;
      InAllSpans(signals[..n], span);
      assert signals == signals[..n] + [signals[n]];
    }
  }

  lemma InSorted(values: seq<int>, v: int)
    ensures v in SortedKeys(values, Same) <==> v in values
  {
    SortedKeysAreTheKeys(values, Same);
    if v in values {
      AtHolds(values, v, Same, v);
    }
    if v in SortedKeys(values, Same) {
      assert At(values, v, Same)[0] in At(values, v, Same);
    }
  }

  lemma InSpansOf(signals: seq<Signal>, span: int)
    ensures span in SpansOf(signals) <==> exists x :: x in signals && span in x.spans
  {
    InAllSpans(signals, span);
    InSorted(AllSpans(signals), span);
  }

  // ---------------------------------------------------------------- one field

  /** The signal belongs to the field: its mechanics and its value table are those of the field. */
  predicate Belongs(field: Field, x: Signal) {
    field.representative.mechanics == x.mechanics && field.representative.table == x.table
  }

  predicate SomeNamed(field: Field, signals: seq<Signal>, name: int) {
    exists x :: x in signals && Belongs(field, x) && x.name == name
  }

  predicate SomeFrom(field: Field, signals: seq<Signal>, source: int) {
    exists x :: x in signals && Belongs(field, x) && x.source == source
  }

  predicate SomeSpans(field: Field, signals: seq<Signal>, span: int) {
    exists x :: x in signals && Belongs(field, x) && span in x.spans
  }

  /** The field says what all its signals say, and represents them by the one with the least identity. */
  ghost predicate Aggregates(field: Field, signals: seq<Signal>) {
    && (forall name :: name in field.names <==> SomeNamed(field, signals, name))
    && (forall source :: source in field.sources <==> SomeFrom(field, signals, source))
    && (forall span :: span in field.representative.spans <==> SomeSpans(field, signals, span))
    && HeadIsLeast(field, signals) && HeadIsOriginal(field, signals)
  }

  predicate HeadIsLeast(field: Field, signals: seq<Signal>) {
    forall x :: x in signals && Belongs(field, x) ==> field.representative.id <= x.id
  }

  predicate HeadIsOriginal(field: Field, signals: seq<Signal>) {
    exists x :: x in signals && field.representative == x.(spans := field.representative.spans)
  }

  lemma GroupHolds(groups: seq<Group>, i: nat, m: Signal)
    requires Partition(groups) && i < |groups| && m in Flat(groups) && SameSignature(groups[i][0], m)
    ensures m in groups[i]
  {
    var j := InFlat(groups, m);
    assert SameSignature(groups[j][0], m);
    SameHead(groups, i, j, m);
  }

  lemma SameHead(groups: seq<Group>, i: nat, j: nat, m: Signal)
    requires Separate(groups) && i < |groups| && j < |groups|
    requires SameSignature(groups[i][0], m) && SameSignature(groups[j][0], m)
    ensures i == j
  {
    assert SameSignature(groups[i][0], groups[j][0]) && SameSignature(groups[j][0], groups[i][0]);
  }

  predicate IsMember(group: Group, x: Signal) {
    group[0].mechanics == x.mechanics && group[0].table == x.table
  }

  /** The groups partition what the signals merge to. */
  predicate Built(signals: seq<Signal>, merged: seq<Signal>, groups: seq<Group>) {
    && IdsNameOneSignal(signals) && Merges(merged, signals, SortedKeys(signals, IdOf))
    && Partition(groups) && multiset(Flat(groups)) == multiset(merged)
  }

  /** A member of a group is an original signal that says what the group says. */
  lemma OriginalOfMember(signals: seq<Signal>, merged: seq<Signal>, groups: seq<Group>, i: nat, m: Signal) returns (x: Signal)
    requires Built(signals, merged, groups) && i < |groups| && m in groups[i]
    ensures x in signals && IsMember(groups[i], x) && m == x.(spans := m.spans) && m in merged
  {
    SameMembers(Flat(groups), merged);
    FlatHolds(groups, i, m);
    x := MergedMember(signals, merged, SortedKeys(signals, IdOf), m);
    assert SameSignature(groups[i][0], m);
  }

  lemma MemberOfOriginal(signals: seq<Signal>, merged: seq<Signal>, groups: seq<Group>, i: nat, x: Signal) returns (m: Signal)
    requires Built(signals, merged, groups) && i < |groups| && x in signals && IsMember(groups[i], x)
    ensures m in groups[i] && m.id == x.id && m.name == x.name && m.source == x.source && m in merged
  {
    var ids := SortedKeys(signals, IdOf);
    IdsCover(signals);
    SameMembers(Flat(groups), merged);
    m := MemberMerged(signals, merged, ids, x);
    var y := MergedMember(signals, merged, ids, m);
    GroupHolds(groups, i, m);
  }

  /** A merged signal carries the spans of all occurrences of its identity. */
  lemma MergedSpans(signals: seq<Signal>, merged: seq<Signal>, ids: seq<int>, m: Signal, span: int)
    requires Merges(merged, signals, ids) && m in merged
    ensures span in m.spans <==> exists x :: x in signals && x.id == m.id && span in x.spans
  {
    var k :| 0 <= k < |merged| && merged[k] == m;
    var found := At(signals, ids[k], IdOf);
    assert StandsFor(m, found);
    InSpansOf(found, span);
    forall x | x in signals && x.id == m.id
      ensures x in found
    {
      AtHolds(signals, x.id, IdOf, x);
    }
  }

  lemma GroupSpans(signals: seq<Signal>, merged: seq<Signal>, groups: seq<Group>, i: nat, span: int)
    requires Built(signals, merged, groups) && AgreeAt(signals, SortedKeys(signals, IdOf)) && i < |groups|
    ensures span in SpansOf(groups[i]) <==> SomeSpans(FieldOf(groups[i]), signals, span)
  {
    var ids := SortedKeys(signals, IdOf);
    IdsCover(signals);
    InSpansOf(groups[i], span);
    if m :| m in groups[i] && span in m.spans {
      var y := OriginalOfMember(signals, merged, groups, i, m);
      MergedSpans(signals, merged, ids, m, span);
      var x :| x in signals && x.id == m.id && span in x.spans;
      AgreeingOccurrences(signals, x, y);
      assert Belongs(FieldOf(groups[i]), x);
    }
    if x :| x in signals && Belongs(FieldOf(groups[i]), x) && span in x.spans {
      var m := MemberOfOriginal(signals, merged, groups, i, x);
      MergedSpans(signals, merged, ids, m, span);
    }
  }

  lemma AgreeingOccurrences(signals: seq<Signal>, x: Signal, y: Signal)
    requires AgreeAt(signals, SortedKeys(signals, IdOf)) && x in signals && y in signals && x.id == y.id
    ensures SameSignature(x, y)
  {
    IdsCover(signals);
    AtHolds(signals, x.id, IdOf, x);
    AtHolds(signals, x.id, IdOf, y);
    assert AllAlike(At(signals, x.id, IdOf));
  }

  lemma GroupNames(signals: seq<Signal>, merged: seq<Signal>, groups: seq<Group>, i: nat, name: int)
    requires Built(signals, merged, groups) && i < |groups|
    ensures name in FieldOf(groups[i]).names <==> SomeNamed(FieldOf(groups[i]), signals, name)
  {
    if m :| m in groups[i] && m.name == name {
      var x := OriginalOfMember(signals, merged, groups, i, m);
      assert Belongs(FieldOf(groups[i]), x);
    }
    if x :| x in signals && Belongs(FieldOf(groups[i]), x) && x.name == name {
      var m := MemberOfOriginal(signals, merged, groups, i, x);
    }
  }

  lemma GroupSources(signals: seq<Signal>, merged: seq<Signal>, groups: seq<Group>, i: nat, source: int)
    requires Built(signals, merged, groups) && i < |groups|
    ensures source in FieldOf(groups[i]).sources <==> SomeFrom(FieldOf(groups[i]), signals, source)
  {
    if m :| m in groups[i] && m.source == source {
      var x := OriginalOfMember(signals, merged, groups, i, m);
      assert Belongs(FieldOf(groups[i]), x);
    }
    if x :| x in signals && Belongs(FieldOf(groups[i]), x) && x.source == source {
      var m := MemberOfOriginal(signals, merged, groups, i, x);
    }
  }

  predicate LeastFirst(group: Group) {
    forall m :: m in group ==> group[0].id <= m.id
  }

  lemma GroupHead(signals: seq<Signal>, merged: seq<Signal>, groups: seq<Group>, i: nat)
    requires Built(signals, merged, groups) && i < |groups| && LeastFirst(groups[i])
    ensures HeadIsLeast(FieldOf(groups[i]), signals) && HeadIsOriginal(FieldOf(groups[i]), signals)
  {
    forall x | x in signals && Belongs(FieldOf(groups[i]), x)
      ensures groups[i][0].id <= x.id
    {
      var m := MemberOfOriginal(signals, merged, groups, i, x);
    }
    var x := OriginalOfMember(signals, merged, groups, i, groups[i][0]);
    assert FieldOf(groups[i]).representative == x.(spans := FieldOf(groups[i]).representative.spans);
  }

  lemma GroupAggregates(signals: seq<Signal>, merged: seq<Signal>, groups: seq<Group>, i: nat)
    requires Built(signals, merged, groups) && AgreeAt(signals, SortedKeys(signals, IdOf))
    requires i < |groups| && LeastFirst(groups[i])
    ensures Aggregates(FieldOf(groups[i]), signals)
  {
    var field := FieldOf(groups[i]);
    forall name
      ensures name in field.names <==> SomeNamed(field, signals, name)
      ensures name in field.sources <==> SomeFrom(field, signals, name)
      ensures name in field.representative.spans <==> SomeSpans(field, signals, name)
    {
      GroupNames(signals, merged, groups, i, name);
      GroupSources(signals, merged, groups, i, name);
      GroupSpans(signals, merged, groups, i, name);
    }
    GroupHead(signals, merged, groups, i);
  }

  /** Every field says exactly what the signals with its mechanics and table say. */
  lemma FieldsAggregate(signals: seq<Signal>, i: nat)
    requires IdsNameOneSignal(signals) && ComposeFields(signals).Composed? && i < |ComposeFields(signals).value.fields|
    ensures Aggregates(ComposeFields(signals).value.fields[i], signals)
  {
    var ids := SortedKeys(signals, IdOf);
    IdsCover(signals);
    MergeIdsStand(signals, ids);
    var merged, groups := FieldsComeFromGroups(signals);
    assert Mapped(groups, FieldOf)[i] == FieldOf(groups[i]);
    assert LeastFirst(groups[i]);
    GroupAggregates(signals, merged, groups, i);
  }

  // ---------------------------------------------------------------- when a composition succeeds

  lemma {:induction false} AllMustCompose(outcomes: seq<Outcome<Result>>)
    ensures Collected(outcomes).Composed? <==> forall o :: o in outcomes ==> o.Composed?
  {
    if outcomes != [] {
      var n := |outcomes| - 1;
      AllMustCompose(outcomes[..n]);
      assert outcomes == outcomes[..n] + [outcomes[n]];
    }
  }

  lemma {:induction false} LengthsAgree(p: Message, others: seq<Entry>)
    ensures LengthConflict(p, others).Nothing? <==> forall e :: e in others ==> e.message.length == p.length
  {
    if others != [] {
      LengthsAgree(p, others[1..]);
      assert others == [others[0]] + others[1..] && others[0] in others;
    }
  }

  predicate SomeHolds(fragments: seq<Entry>, x: Signal) {
    exists e :: e in fragments && x in e.message.signals
  }

  lemma {:induction false} InSignalsOf(fragments: seq<Entry>, x: Signal)
    ensures x in SignalsOf(fragments) <==> SomeHolds(fragments, x)
  {
    if fragments != [] {
      var n := |fragments| - 1;
      InSignalsOf(fragments[..n], x);
      assert fragments == fragments[..n] + [fragments[n]];
      assert fragments[n] in fragments;
      if SomeHolds(fragments[..n], x) {
        var e :| e in fragments[..n] && x in e.message.signals;
        assert e in fragments;
      }
    }
  }

  /** Two definitions of one message fit: one payload length, and every two of their signals fit. */
  predicate MessagesFit(e: Entry, f: Entry) {
    e.message.length == f.message.length && SignalsFit(e.message.signals, f.message.signals)
  }

  predicate SignalsFit(xs: seq<Signal>, ys: seq<Signal>) {
    forall x, y :: x in xs && y in ys ==> Fit(x, y)
  }

  predicate AllMessagesFit(fragments: seq<Entry>) {
    forall e, f :: e in fragments && f in fragments ==> MessagesFit(e, f)
  }

  /** Signals with one identity in one message have one name and one source. */
  predicate OneNameEach(fragments: seq<Entry>) {
    IdsNameOneSignal(SignalsOf(fragments))
  }

  lemma LengthsFit(fragments: seq<Entry>)
    requires fragments != []
    ensures LengthConflict(fragments[0].message, fragments[1..]).Nothing? <==>
            forall e, f :: e in fragments && f in fragments ==> e.message.length == f.message.length
  {
    LengthsAgree(fragments[0].message, fragments[1..]);
    assert fragments == [fragments[0]] + fragments[1..];
  }

  lemma SignalsAllFit(fragments: seq<Entry>)
    ensures AllFit(SignalsOf(fragments)) <==>
            forall e, f :: e in fragments && f in fragments ==> SignalsFit(e.message.signals, f.message.signals)
  {
    var signals := SignalsOf(fragments);
    if AllFit(signals) {
      forall e, f, x, y | e in fragments && f in fragments && x in e.message.signals && y in f.message.signals
        ensures Fit(x, y)
      {
        InSignalsOf(fragments, x);
        InSignalsOf(fragments, y);
      }
    }
    if forall e, f :: e in fragments && f in fragments ==> SignalsFit(e.message.signals, f.message.signals) {
      forall x, y | x in signals && y in signals
        ensures Fit(x, y)
      {
        InSignalsOf(fragments, x);
        InSignalsOf(fragments, y);
        var e :| e in fragments && x in e.message.signals;
        var f :| f in fragments && y in f.message.signals;
        assert SignalsFit(e.message.signals, f.message.signals);
      }
    }
  }

  lemma KeyComposes(fragments: seq<Entry>)
    requires fragments != [] && OneNameEach(fragments)
    ensures ComposeKey(fragments).Composed? <==> AllMessagesFit(fragments)
  {
    LengthsFit(fragments);
    SignalsAllFit(fragments);
    ComposesWhenCompatible(SignalsOf(fragments));
    assert ComposeKey(fragments).Composed? <==>
           LengthConflict(fragments[0].message, fragments[1..]).Nothing? && AllFit(SignalsOf(fragments));
  }

  lemma InFragments(entries: seq<Entry>, key: int, e: Entry)
    ensures e in Fragments(entries, key) <==> e in entries && e.key == key
  {
    FragmentsShareKey(entries, key);
    if e in entries && e.key == key {
      AtHolds(entries, key, KeyOf, e);
      SortByOrders(At(entries, key, KeyOf), MessageId);
      SameMembers(Fragments(entries, key), At(entries, key, KeyOf));
    }
  }

  predicate EachNamesOne(entries: seq<Entry>) {
    forall key :: key in SortedKeys(entries, KeyOf) ==> OneNameEach(Fragments(entries, key))
  }

  /** A key composes exactly when its definitions fit. */
  lemma OutcomeComposes(entries: seq<Entry>, keys: seq<int>, i: nat)
    requires Inhabited(entries, keys, KeyOf) && i < |keys| && OneNameEach(Fragments(entries, keys[i]))
    ensures OutcomesOf(entries, keys)[i].Composed? <==> AllMessagesFit(Fragments(entries, keys[i]))
  {
    KeyComposes(Fragments(entries, keys[i]));
  }

  predicate AllEntriesFit(entries: seq<Entry>) {
    forall e, f :: e in entries && f in entries && e.key == f.key ==> MessagesFit(e, f)
  }

  lemma FragmentsMakeEntriesFit(entries: seq<Entry>, keys: seq<int>)
    requires keys == SortedKeys(entries, KeyOf) && forall key :: key in keys ==> AllMessagesFit(Fragments(entries, key))
    ensures AllEntriesFit(entries)
  {
    SortedKeysAreTheKeys(entries, KeyOf);
    forall e, f | e in entries && f in entries && e.key == f.key
      ensures MessagesFit(e, f)
    {
      AtHolds(entries, e.key, KeyOf, e);
      assert AllMessagesFit(Fragments(entries, e.key));
      InFragments(entries, e.key, e);
      InFragments(entries, e.key, f);
    }
  }

  /** A composition succeeds exactly when any two messages of one wire identity fit. */
  lemma CompositionSucceedsWhenAllFit(entries: seq<Entry>)
    requires EachNamesOne(entries)
    ensures Compose.Compose(entries).Composed? <==> AllEntriesFit(entries)
  {
    var keys := SortedKeys(entries, KeyOf);
    SortedKeysAreTheKeys(entries, KeyOf);
    var outcomes := OutcomesOf(entries, keys);
    AllMustCompose(outcomes);
    forall i | 0 <= i < |keys|
      ensures outcomes[i].Composed? <==> AllMessagesFit(Fragments(entries, keys[i]))
    {
      OutcomeComposes(entries, keys, i);
    }
    if AllEntriesFit(entries) {
      forall i | 0 <= i < |keys|
        ensures outcomes[i].Composed?
      {
        FragmentsFit(entries, keys[i]);
      }
    }
    if forall o :: o in outcomes ==> o.Composed? {
      forall key | key in keys
        ensures AllMessagesFit(Fragments(entries, key))
      {
        var i :| 0 <= i < |keys| && keys[i] == key;
        assert outcomes[i] in outcomes;
      }
      FragmentsMakeEntriesFit(entries, keys);
    }
  }

  lemma FragmentsFit(entries: seq<Entry>, key: int)
    requires AllEntriesFit(entries)
    ensures AllMessagesFit(Fragments(entries, key))
  {
    FragmentsShareKey(entries, key);
  }

  // ---------------------------------------------------------------- what a conflict reports

  /** The pair blames two signals: its reason is theirs, and it names their first spans. */
  predicate Blames(pair: Pair, x: Signal, y: Signal) {
    ConflictReason(x, y) == Just(pair.reason) && pair.first == FirstSpan(x.spans) && pair.second == FirstSpan(y.spans)
  }

  lemma {:induction false} SecondBlamed(x: Signal, later: seq<Signal>) returns (y: Signal)
    requires ScanSeconds(x, later).Just?
    ensures y in later && Blames(ScanSeconds(x, later).value, x, y)
  {
    y := later[0];
    if ConflictReason(x, y).Nothing? {
      y := SecondBlamed(x, later[1..]);
    }
  }

  lemma {:induction false} FirstBlamed(earlier: seq<Signal>, later: seq<Signal>) returns (x: Signal, y: Signal)
    requires ScanFirsts(earlier, later).Just?
    ensures x in earlier && y in later && Blames(ScanFirsts(earlier, later).value, x, y)
  {
    x := earlier[0];
    if ScanSeconds(x, later).Just? {
      y := SecondBlamed(x, later);
    } else {
      x, y := FirstBlamed(earlier[1..], later);
    }
  }

  lemma {:induction false} EarlierBlamed(groups: seq<Group>, later: Group) returns (i: nat, x: Signal, y: Signal)
    requires ScanEarlier(groups, later).Just?
    ensures i < |groups| && x in groups[i] && y in later && Blames(ScanEarlier(groups, later).value, x, y)
  {
    i := 0;
    if ScanFirsts(groups[0], later).Just? {
      x, y := FirstBlamed(groups[0], later);
    } else {
      i, x, y := EarlierBlamed(groups[1..], later);
      i := i + 1;
    }
  }

  lemma {:induction false} ConflictBlamed(groups: seq<Group>) returns (x: Signal, y: Signal)
    requires FirstConflict(groups).Just?
    ensures x in Flat(groups) && y in Flat(groups) && Blames(FirstConflict(groups).value, x, y)
  {
    var n := |groups| - 1;
    if FirstConflict(groups[..n]).Just? {
      x, y := ConflictBlamed(groups[..n]);
    } else {
      var i;
      i, x, y := EarlierBlamed(groups[..n], groups[n]);
      FlatHolds(groups, i, x);
      FlatHolds(groups, n, y);
    }
  }

  /** A span the composition may report for a definition: one of its identity, or none when there is none. */
  predicate IsSpanOf(signals: seq<Signal>, x: Signal, span: int) {
    span == 0 || exists z :: z in signals && z.id == x.id && span in z.spans
  }

  lemma {:induction false} UnlikeBlamed(x: Signal, others: seq<Signal>)
    requires FirstUnlike(x, others).Just?
    ensures FirstUnlike(x, others).value in others && !SameSignature(FirstUnlike(x, others).value, x)
  {
    if SameSignature(others[0], x) {
      UnlikeBlamed(x, others[1..]);
    }
  }

  lemma {:induction false} MergeBlamed(signals: seq<Signal>, ids: seq<int>) returns (x: Signal, y: Signal)
    requires Inhabited(signals, ids, IdOf) && MergeIds(signals, ids).Conflict?
    ensures x in signals && y in signals && x.id == y.id && !SameSignature(y, x)
    ensures MergeIds(signals, ids) == Conflict(SameName(x.name), FirstSpan(x.spans), FirstSpan(y.spans))
  {
    var n := |ids| - 1;
    if MergeIds(signals, ids[..n]).Conflict? {
      x, y := MergeBlamed(signals, ids[..n]);
    } else {
      var found := At(signals, ids[n], IdOf);
      UnlikeBlamed(found[0], found[1..]);
      x, y := found[0], FirstUnlike(found[0], found[1..]).value;
      assert x in found && y in found;
    }
  }

  lemma OwnSpan(signals: seq<Signal>, x: Signal)
    requires x in signals
    ensures IsSpanOf(signals, x, FirstSpan(x.spans))
  {
    if x.spans != [] {
      assert x.spans[0] in x.spans;
    }
  }

  lemma MergedSpan(signals: seq<Signal>, merged: seq<Signal>, ids: seq<int>, m: Signal, x: Signal)
    requires Merges(merged, signals, ids) && m in merged && x.id == m.id
    ensures IsSpanOf(signals, x, FirstSpan(m.spans))
  {
    if m.spans != [] {
      assert m.spans[0] in m.spans;
      MergedSpans(signals, merged, ids, m, m.spans[0]);
    }
  }

  lemma SameReason(p: Signal, q: Signal, x: Signal, y: Signal)
    requires p == x.(spans := p.spans) && q == y.(spans := q.spans)
    ensures ConflictReason(p, q) == ConflictReason(x, y)
  {
    assert BitsOf(p) == BitsOf(x) && BitsOf(q) == BitsOf(y);
  }

  lemma GroupsBlamed(signals: seq<Signal>, merged: seq<Signal>, ids: seq<int>, groups: seq<Group>) returns (x: Signal, y: Signal)
    requires Merges(merged, signals, ids) && multiset(Flat(groups)) == multiset(merged) && FirstConflict(groups).Just?
    ensures x in signals && y in signals
    ensures var c := FirstConflict(groups).value;
            IsSpanOf(signals, x, c.first) && IsSpanOf(signals, y, c.second) && ConflictReason(x, y) == Just(c.reason)
  {
    var p, q := ConflictBlamed(groups);
    SameMembers(Flat(groups), merged);
    x := MergedMember(signals, merged, ids, p);
    y := MergedMember(signals, merged, ids, q);
    MergedSpan(signals, merged, ids, p, x);
    MergedSpan(signals, merged, ids, q, y);
    SameReason(p, q, x, y);
  }

  /** The definitions disagree: one identity that does not say one thing, or two that touch as the reason says. */
  predicate Disagree(x: Signal, y: Signal, reason: Reason) {
    (x.id == y.id && !SameSignature(y, x) && reason == SameName(x.name)) || ConflictReason(x, y) == Just(reason)
  }

  /** A reported conflict is real, and each reported place is one of its definition's. */
  lemma ConflictIsReal(signals: seq<Signal>) returns (x: Signal, y: Signal)
    requires ComposeFields(signals).Conflict?
    ensures x in signals && y in signals && Disagree(x, y, ComposeFields(signals).reason)
    ensures IsSpanOf(signals, x, ComposeFields(signals).first) && IsSpanOf(signals, y, ComposeFields(signals).second)
  {
    var ids := SortedKeys(signals, IdOf);
    IdsCover(signals);
    MergeIdsStand(signals, ids);
    if MergeIds(signals, ids).Conflict? {
      x, y := MergeBlamed(signals, ids);
      OwnSpan(signals, x);
      OwnSpan(signals, y);
    } else {
      var merged := MergeIds(signals, ids).value;
      var bound := MergedAreStrict(merged, signals, ids);
      GroupedPartitions(merged, bound);
      SortOfAscending(Grouped(merged), HeadId);
      x, y := GroupsBlamed(signals, merged, ids, Grouped(merged));
    }
  }

  // ---------------------------------------------------------------- one message

  /** The message says what all its definitions say, and represents them by the one with the least identity. */
  ghost predicate Gathers(message: ComposedMessage, fragments: seq<Entry>) {
    && (message.executable <==> forall e :: e in fragments ==> e.message.executable)
    && (forall form :: form in message.unsupported <==> SomeForm(fragments, form))
    && (forall span :: span in message.spans <==> SomeSpan(fragments, span))
    && (forall e :: e in fragments ==> e.message.length == message.length && message.id <= e.message.id)
    && (exists e :: e in fragments && IsHead(message, e))
  }

  predicate SomeForm(fragments: seq<Entry>, form: int) {
    exists e :: e in fragments && form in e.message.unsupported
  }

  predicate SomeSpan(fragments: seq<Entry>, span: int) {
    exists e :: e in fragments && span in e.message.spans
  }

  predicate IsHead(message: ComposedMessage, e: Entry) {
    && message.key == e.key && message.id == e.message.id && message.name == e.message.name
    && message.details == e.message.details
  }

  lemma {:induction false} InMessageSpans(fragments: seq<Entry>, span: int)
    ensures span in MessageSpans(fragments) <==> SomeSpan(fragments, span)
  {
    if fragments != [] {
      var n := |fragments| - 1;
      InMessageSpans(fragments[..n], span);
      assert fragments == fragments[..n] + [fragments[n]];
      assert fragments[n] in fragments;
      if SomeSpan(fragments[..n], span) {
        var e :| e in fragments[..n] && span in e.message.spans;
        assert e in fragments;
      }
    }
  }

  lemma HeadIsLeastMessage(entries: seq<Entry>, key: int)
    ensures forall e :: e in Fragments(entries, key) ==> Fragments(entries, key)[0].message.id <= e.message.id
  {
    SortByOrders(At(entries, key, KeyOf), MessageId);
    var fragments := Fragments(entries, key);
    forall e | e in fragments
      ensures fragments[0].message.id <= e.message.id
    {
      var i :| 0 <= i < |fragments| && fragments[i] == e;
      assert 0 < i ==> MessageId(fragments[0]) <= MessageId(fragments[i]);
    }
  }

  lemma MessageGathers(entries: seq<Entry>, key: int, fields: seq<Field>)
    requires Fragments(entries, key) != []
    requires LengthConflict(Fragments(entries, key)[0].message, Fragments(entries, key)[1..]).Nothing?
    ensures Gathers(MessageOf(Fragments(entries, key), fields), Fragments(entries, key))
  {
    var fragments := Fragments(entries, key);
    var message := MessageOf(fragments, fields);
    LengthsFit(fragments);
    HeadIsLeastMessage(entries, key);
    assert fragments[0] in fragments;
    forall span
      ensures span in message.spans <==> SomeSpan(fragments, span)
    {
      InMessageSpans(fragments, span);
      InSorted(MessageSpans(fragments), span);
    }
    forall form
      ensures form in message.unsupported <==> SomeForm(fragments, form)
    {
      FormsGather(fragments, form, message.unsupported);
    }
    assert IsHead(message, fragments[0]);
  }

  lemma FormsGather(fragments: seq<Entry>, form: int, forms: set<int>)
    requires forms == set i, f | 0 <= i < |fragments| && f in fragments[i].message.unsupported :: f
    ensures form in forms <==> SomeForm(fragments, form)
  {
    if e :| e in fragments && form in e.message.unsupported {
      var i :| 0 <= i < |fragments| && fragments[i] == e;
    }
  }

  /** The message and its fields are made of the definitions with its wire identity, all of them. */
  ghost predicate IsMadeOf(message: ComposedMessage, fragments: seq<Entry>) {
    Gathers(message, fragments) &&
    forall i :: 0 <= i < |message.fields| ==> Aggregates(message.fields[i], SignalsOf(fragments))
  }

  /** Every composed message says exactly what the definitions of its wire identity say. */
  lemma MessagesGather(entries: seq<Entry>, i: nat)
    requires EachNamesOne(entries) && Compose.Compose(entries).Composed? && i < |SortedKeys(entries, KeyOf)|
    ensures |Compose.Compose(entries).value.messages| == |SortedKeys(entries, KeyOf)|
    ensures IsMadeOf(Compose.Compose(entries).value.messages[i], Fragments(entries, SortedKeys(entries, KeyOf)[i]))
  {
    var keys := SortedKeys(entries, KeyOf);
    SortedKeysAreTheKeys(entries, KeyOf);
    OutcomesAreSingle(entries, keys);
    CollectedMessages(OutcomesOf(entries, keys), i);
    var fragments := Fragments(entries, keys[i]);
    var fields := ComposeFields(SignalsOf(fragments)).value.fields;
    MessageGathers(entries, keys[i], fields);
    forall k | 0 <= k < |fields|
      ensures Aggregates(fields[k], SignalsOf(fragments))
    {
      FieldsAggregate(SignalsOf(fragments), k);
    }
  }

  lemma {:induction false} AliasIsCollected(outcomes: seq<Outcome<Result>>, i: nat, alias: Alias)
    requires Collected(outcomes).Composed? && i < |outcomes| && outcomes[i].Composed? && alias in outcomes[i].value.aliases
    ensures alias in Collected(outcomes).value.aliases
  {
    var n := |outcomes| - 1;
    if i < n {
      AliasIsCollected(outcomes[..n], i, alias);
    }
  }

  /** The alias of a message to the one that represents its wire identity. */
  function AliasOf(representative: int, e: Entry): Alias {
    Alias(MessageAlias, representative, e.message.source, e.message.name, e.message.id, e.message.spans)
  }

  lemma KeyAliases(fragments: seq<Entry>, k: nat)
    requires k < |fragments| && ComposeKey(fragments).Composed?
    ensures |ComposeKey(fragments).value.messages| == 1
    ensures AliasOf(ComposeKey(fragments).value.messages[0].id, fragments[k]) in ComposeKey(fragments).value.aliases
  {
    var rep := fragments[0].message;
    assert MessageAliases(rep.id, fragments)[k] == AliasOf(rep.id, fragments[k]);
    assert MessageAliases(rep.id, fragments)[k] in MessageAliases(rep.id, fragments);
  }

  predicate IsAliased(r: Result, i: nat, e: Entry) {
    i < |r.messages| && AliasOf(r.messages[i].id, e) in r.aliases
  }

  lemma OutcomeAliases(entries: seq<Entry>, keys: seq<int>, i: nat, outcome: Outcome<Result>, k: nat)
    requires Inhabited(entries, keys, KeyOf) && i < |keys| && outcome == ComposeKey(Fragments(entries, keys[i]))
    requires Collected(OutcomesOf(entries, keys)).Composed? && k < |Fragments(entries, keys[i])|
    ensures IsAliased(Collected(OutcomesOf(entries, keys)).value, i, Fragments(entries, keys[i])[k])
  {
    var outcomes := OutcomesOf(entries, keys);
    OutcomesAreSingle(entries, keys);
    CollectedMessages(outcomes, i);
    assert outcomes[i] == outcome;
    KeyAliases(Fragments(entries, keys[i]), k);
    AliasIsCollected(outcomes, i, AliasOf(outcome.value.messages[0].id, Fragments(entries, keys[i])[k]));
  }

  /** Every message that went in is an alias of the message that represents its wire identity. */
  lemma EveryMessageIsAliased(entries: seq<Entry>, e: Entry, i: nat)
    requires Compose.Compose(entries).Composed? && e in entries
    requires i < |SortedKeys(entries, KeyOf)| && SortedKeys(entries, KeyOf)[i] == e.key
    ensures IsAliased(Compose.Compose(entries).value, i, e)
  {
    var keys := SortedKeys(entries, KeyOf);
    SortedKeysAreTheKeys(entries, KeyOf);
    InFragments(entries, e.key, e);
    var fragments := Fragments(entries, keys[i]);
    var k :| 0 <= k < |fragments| && fragments[k] == e;
    OutcomeAliases(entries, keys, i, ComposeKey(fragments), k);
  }
}
