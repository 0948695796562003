/** When composition succeeds, and what it then guarantees. */
module ComposeLaws {
  import opened SortedLists
  import opened Compose
  import opened ComposeOrder

  // ---------------------------------------------------------------- conflicts

  /** The signals touch each other neither in bits nor in name. */
  predicate Compatible(x: Signal, y: Signal) {
    BitsOf(x) !! BitsOf(y) && x.name != y.name
  }

  /** Signals either say the same or do not touch each other. */
  predicate AllCompatible(signals: seq<Signal>) {
    forall x, y :: x in signals && y in signals ==> SameSignature(x, y) || Compatible(x, y)
  }

  /** The table's last entry for the raw value of `entry` has another label. */
  predicate Relabels(table: seq<ValueLabel>, entry: ValueLabel) {
    exists i :: 0 <= i < |table| && IsLastFor(table, i, entry.raw) && table[i].text != entry.text
  }

  predicate IsLastFor(table: seq<ValueLabel>, i: nat, raw: int) {
    i < |table| && table[i].raw == raw && forall j :: i < j < |table| ==> table[j].raw != raw
  }

  lemma {:induction false} LabelIsLast(table: seq<ValueLabel>, entry: ValueLabel)
    ensures LabelOr(table, entry.raw, entry.text) != entry.text <==> Relabels(table, entry)
  {
    if table != [] {
      var n := |table| - 1;
      LabelIsLast(table[..n], entry);
      assert IsLastFor(table, n, entry.raw) <==> table[n].raw == entry.raw;
      forall i | 0 <= i < n
        ensures IsLastFor(table, i, entry.raw) <==> IsLastFor(table[..n], i, entry.raw) && table[n].raw != entry.raw
      {
      }
    }
  }

  /** The reported raw value is that of the first entry that is relabelled. */
  predicate FirstRelabelled(first: seq<ValueLabel>, second: seq<ValueLabel>, raw: int) {
    exists j :: 0 <= j < |second| && second[j].raw == raw && Relabels(first, second[j]) &&
                forall k :: 0 <= k < j ==> !Relabels(first, second[k])
  }

  lemma {:induction false} LabelsConflict(first: seq<ValueLabel>, second: seq<ValueLabel>)
    ensures LabelConflict(first, second).Nothing? ==> forall j :: 0 <= j < |second| ==> !Relabels(first, second[j])
    ensures LabelConflict(first, second).Just? ==> FirstRelabelled(first, second, LabelConflict(first, second).value)
  {
    if second != [] {
      LabelIsLast(first, second[0]);
      LabelsConflict(first, second[1..]);
      assert forall k :: 1 <= k < |second| ==> second[k] == second[1..][k - 1];
      if !Relabels(first, second[0]) && LabelConflict(first, second[1..]).Just? {
        var raw := LabelConflict(first, second[1..]).value;
        var j :| 0 <= j < |second[1..]| && second[1..][j].raw == raw && Relabels(first, second[1..][j]) &&
                 forall k :: 0 <= k < j ==> !Relabels(first, second[1..][k]);
        assert second[j + 1] == second[1..][j];
      }
    }
  }

  /** Two signals conflict exactly when they touch, and the reason says how. */
  lemma ReasonSaysWhy(x: Signal, y: Signal)
    ensures ConflictReason(x, y).Nothing? <==> BitsOf(x) !! BitsOf(y) && x.name != y.name
    ensures ConflictReason(x, y) == Just(PartialOverlap) <==> !(BitsOf(x) !! BitsOf(y)) && BitsOf(x) != BitsOf(y)
    ensures BitsOf(x) !! BitsOf(y) && x.name == y.name ==> ConflictReason(x, y) == Just(SameName(x.name))
    ensures BitsOf(x) == BitsOf(y) != {} && (exists j :: 0 <= j < |y.table| && Relabels(x.table, y.table[j])) ==>
              exists raw :: ConflictReason(x, y) == Just(ConflictingLabels(raw)) && FirstRelabelled(x.table, y.table, raw)
    ensures BitsOf(x) == BitsOf(y) != {} && (forall j :: 0 <= j < |y.table| ==> !Relabels(x.table, y.table[j])) ==>
              ConflictReason(x, y) == Just(DifferentMechanics)
  {
    DisjointIsEmpty(BitsOf(x), BitsOf(y));
    LabelsConflict(x.table, y.table);
  }

  lemma DisjointIsEmpty(a: set<int>, b: set<int>)
    ensures a * b == {} <==> a !! b
    ensures a == b ==> a * b == a
  {
    assert forall bit :: bit in a * b <==> bit in a && bit in b;
  }

  predicate Apart(earlier: seq<Signal>, later: seq<Signal>) {
    forall x, y :: x in earlier && y in later ==> Compatible(x, y)
  }

  predicate GroupsApart(groups: seq<Group>) {
    forall i, j :: 0 <= i < j < |groups| ==> Apart(groups[i], groups[j])
  }

  lemma {:induction false} SecondsScanned(x: Signal, later: seq<Signal>)
    ensures ScanSeconds(x, later).Nothing? <==> forall y :: y in later ==> Compatible(x, y)
  {
    if later != [] {
      ReasonSaysWhy(x, later[0]);
      SecondsScanned(x, later[1..]);
      assert later == [later[0]] + later[1..];
      assert later[0] in later;
    }
  }

  lemma {:induction false} FirstsScanned(earlier: seq<Signal>, later: seq<Signal>)
    ensures ScanFirsts(earlier, later).Nothing? <==> Apart(earlier, later)
  {
    if earlier != [] {
      SecondsScanned(earlier[0], later);
      FirstsScanned(earlier[1..], later);
      assert earlier == [earlier[0]] + earlier[1..];
    }
  }

  lemma {:induction false} EarlierScanned(groups: seq<Group>, later: Group)
    ensures ScanEarlier(groups, later).Nothing? <==> forall i :: 0 <= i < |groups| ==> Apart(groups[i], later)
  {
    if groups != [] {
      FirstsScanned(groups[0], later);
      EarlierScanned(groups[1..], later);
      assert groups == [groups[0]] + groups[1..];
    }
  }

  lemma {:induction false} ConflictsScanned(groups: seq<Group>)
    ensures FirstConflict(groups).Nothing? <==> GroupsApart(groups)
  {
    if groups != [] {
      var n := |groups| - 1;
      ConflictsScanned(groups[..n]);
      EarlierScanned(groups[..n], groups[n]);
      assert groups == groups[..n] + [groups[n]];
    }
  }

  // ---------------------------------------------------------------- groups

  predicate Uniform(groups: seq<Group>) {
    forall i, x :: 0 <= i < |groups| && x in groups[i] ==> SameSignature(groups[i][0], x)
  }

  predicate Separate(groups: seq<Group>) {
    forall i, j :: 0 <= i < j < |groups| ==> !SameSignature(groups[i][0], groups[j][0])
  }

  predicate Leading(groups: seq<Group>) {
    forall i, x :: 0 <= i < |groups| && x in groups[i] ==> HeadId(groups[i]) <= x.id
  }

  predicate Below(groups: seq<Group>, id: int) {
    forall i :: 0 <= i < |groups| ==> HeadId(groups[i]) < id
  }

  function Flat(groups: seq<Group>): seq<Signal> {
    if groups == [] then [] else Flat(groups[..|groups| - 1]) + groups[|groups| - 1]
  }

  lemma FlatSplits(groups: seq<Group>, last: Group)
    ensures multiset(Flat(groups + [last])) == multiset(Flat(groups)) + multiset(last)
  {
    assert (groups + [last])[..|groups|] == groups;
  }

  lemma FrontGrows(front: seq<Group>, grownFront: seq<Group>, last: Group, x: Signal)
    requires multiset(Flat(grownFront)) == multiset(Flat(front)) + multiset{x}
    ensures multiset(Flat(grownFront + [last])) == multiset(Flat(front + [last])) + multiset{x}
  {
    FlatSplits(front, last);
    FlatSplits(grownFront, last);
  }

  lemma LastGrows(front: seq<Group>, last: Group, grown: Group, x: Signal)
    requires grown == last + [x]
    ensures multiset(Flat(front + [grown])) == multiset(Flat(front + [last])) + multiset{x}
  {
    FlatSplits(front, last);
    FlatSplits(front, grown);
  }

  lemma {:induction false} FlatGrows(groups: seq<Group>, i: nat, grown: Group, x: Signal)
    requires i < |groups| && grown == groups[i] + [x]
    ensures multiset(Flat(groups[i := grown])) == multiset(Flat(groups)) + multiset{x}
  {
    var n := |groups| - 1;
    var front, last := groups[..n], groups[n];
    assert groups == front + [last];
    if i < n {
      FlatGrows(front, i, grown, x);
      FrontGrows(front, front[i := grown], last, x);
      assert groups[i := grown] == front[i := grown] + [last];
    } else {
      LastGrows(front, last, grown, x);
      assert groups[i := grown] == front + [grown];
    }
  }

  predicate Partition(groups: seq<Group>) {
    Uniform(groups) && Separate(groups) && Strict(groups, HeadId) && Leading(groups)
  }

  lemma AppendKeepsGroups(groups: seq<Group>, x: Signal)
    requires Partition(groups) && Below(groups, x.id) && PlaceOf(groups, x) == |groups|
    ensures Partition(groups + [[x]]) && Below(groups + [[x]], x.id + 1)
  {
  }

  lemma GrowKeepsGroups(groups: seq<Group>, i: nat, grown: Group, x: Signal)
    requires Partition(groups) && Below(groups, x.id)
    requires i < |groups| && grown == groups[i] + [x] && SameSignature(groups[i][0], x)
    ensures Partition(groups[i := grown]) && Below(groups[i := grown], x.id + 1)
  {
    var r := groups[i := grown];
    assert forall j :: 0 <= j < |r| ==> r[j][0] == groups[j][0];
  }

  lemma AddKeepsGroups(groups: seq<Group>, x: Signal)
    requires Partition(groups) && Below(groups, x.id)
    ensures var r := AddToGroup(groups, x); Partition(r) && Below(r, x.id + 1)
    ensures multiset(Flat(AddToGroup(groups, x))) == multiset(Flat(groups)) + multiset{x}
  {
    var i := PlaceOf(groups, x);
    if i < |groups| {
      FlatGrows(groups, i, groups[i] + [x], x);
      GrowKeepsGroups(groups, i, groups[i] + [x], x);
    } else {
      FlatSplits(groups, [x]);
      AppendKeepsGroups(groups, x);
    }
  }

  predicate AllBelow(signals: seq<Signal>, bound: int) {
    forall i :: 0 <= i < |signals| ==> signals[i].id < bound
  }

  lemma FrontIsBelow(merged: seq<Signal>, bound: int)
    requires Strict(merged, IdOf) && AllBelow(merged, bound) && merged != []
    ensures Strict(merged[..|merged| - 1], IdOf) && AllBelow(merged[..|merged| - 1], merged[|merged| - 1].id)
    ensures merged[|merged| - 1].id + 1 <= bound
  {
    assert forall i :: 0 <= i < |merged| - 1 ==> IdOf(merged[i]) < IdOf(merged[|merged| - 1]);
  }

  lemma OneMoreGrouped(groups: seq<Group>, front: seq<Signal>, last: Signal, bound: int)
    requires Partition(groups) && Below(groups, last.id) && multiset(Flat(groups)) == multiset(front) && last.id < bound
    ensures Partition(AddToGroup(groups, last)) && Below(AddToGroup(groups, last), bound)
    ensures multiset(Flat(AddToGroup(groups, last))) == multiset(front + [last])
  {
    AddKeepsGroups(groups, last);
  }

  /** The groups partition the signals by signature, and their order is already ascending. */
  lemma {:induction false} GroupedPartitions(merged: seq<Signal>, bound: int)
    requires Strict(merged, IdOf) && AllBelow(merged, bound)
    ensures Partition(Grouped(merged)) && Below(Grouped(merged), bound)
    ensures multiset(Flat(Grouped(merged))) == multiset(merged)
  {
    if merged != [] {
      var front, last := merged[..|merged| - 1], merged[|merged| - 1];
      FrontIsBelow(merged, bound);
      GroupedPartitions(front, last.id);
      OneMoreGrouped(Grouped(front), front, last, bound);
      assert merged == front + [last];
    }
  }

  lemma InsertAtEnd<T>(s: seq<T>, x: T, key: T -> int)
    requires s == [] || key(s[|s| - 1]) <= key(x)
    ensures Insert(s, x, key) == s + [x]
  {
  }

  lemma {:induction false} SortOfAscending<T>(s: seq<T>, key: T -> int)
    requires Ascending(s, key)
    ensures SortBy(s, key) == s
  {
    if s != [] {
      var n := |s| - 1;
      SortOfAscending(s[..n], key);
      assert n > 0 ==> key(s[n - 1]) <= key(s[n]);
      InsertAtEnd(s[..n], s[n], key);
      assert s == s[..n] + [s[n]];
    }
  }

  lemma {:induction false} InFlat(groups: seq<Group>, x: Signal) returns (i: nat)
    requires x in Flat(groups)
    ensures i < |groups| && x in groups[i]
  {
    i := |groups| - 1;
    if x !in groups[i] {
      i := InFlat(groups[..i], x);
    }
  }

  lemma {:induction false} FlatHolds(groups: seq<Group>, i: nat, x: Signal)
    requires i < |groups| && x in groups[i]
    ensures x in Flat(groups)
  {
    if i < |groups| - 1 {
      FlatHolds(groups[..|groups| - 1], i, x);
    }
  }

  lemma CompatibleIsSymmetric(x: Signal, y: Signal)
    ensures Compatible(x, y) <==> Compatible(y, x)
  {
  }

  lemma ApartPair(groups: seq<Group>, x: Signal, y: Signal)
    requires Partition(groups) && GroupsApart(groups) && x in Flat(groups) && y in Flat(groups)
    ensures SameSignature(x, y) || Compatible(x, y)
  {
    var i := InFlat(groups, x);
    var j := InFlat(groups, y);
    CompatibleIsSymmetric(x, y);
    if i < j {
      assert Apart(groups[i], groups[j]);
    } else if j < i {
      assert Apart(groups[j], groups[i]);
    } else {
      assert SameSignature(groups[i][0], x) && SameSignature(groups[i][0], y);
    }
  }

  lemma CompatiblePair(groups: seq<Group>, i: nat, j: nat, x: Signal, y: Signal)
    requires Partition(groups) && AllCompatible(Flat(groups))
    requires i < j < |groups| && x in groups[i] && y in groups[j]
    ensures Compatible(x, y)
  {
    FlatHolds(groups, i, x);
    FlatHolds(groups, j, y);
    assert SameSignature(groups[i][0], x) && SameSignature(groups[j][0], y);
    assert !SameSignature(groups[i][0], groups[j][0]);
  }

  /** No cross-group conflict means no conflict between any two signals of different signature. */
  lemma ApartMeansCompatible(groups: seq<Group>)
    requires Partition(groups)
    ensures GroupsApart(groups) <==> AllCompatible(Flat(groups))
  {
    if GroupsApart(groups) {
      forall x, y | x in Flat(groups) && y in Flat(groups)
        ensures SameSignature(x, y) || Compatible(x, y)
      {
        ApartPair(groups, x, y);
      }
    }
    if AllCompatible(Flat(groups)) {
      forall i, j | 0 <= i < j < |groups|
        ensures Apart(groups[i], groups[j])
      {
        forall x, y | x in groups[i] && y in groups[j]
          ensures Compatible(x, y)
        {
          CompatiblePair(groups, i, j, x, y);
        }
      }
    }
  }

  // ---------------------------------------------------------------- merging repeated identities

  /** One merged signal stands for its occurrences: same mechanics, same identity, all their spans. */
  predicate StandsFor(one: Signal, found: seq<Signal>) {
    (forall x :: x in found ==> SameSignature(one, x) && one.id == x.id) &&
    (exists x :: x in found && one == x.(spans := SpansOf(found)))
  }

  predicate Merges(merged: seq<Signal>, signals: seq<Signal>, ids: seq<int>) {
    |merged| == |ids| &&
    forall i :: 0 <= i < |ids| ==> merged[i].id == ids[i] && StandsFor(merged[i], At(signals, ids[i], IdOf))
  }

  predicate AgreeAt(signals: seq<Signal>, ids: seq<int>) {
    forall id :: id in ids ==> AllAlike(At(signals, id, IdOf))
  }

  lemma {:induction false} NoneUnlike(x: Signal, others: seq<Signal>)
    ensures FirstUnlike(x, others).Nothing? <==> forall y :: y in others ==> SameSignature(x, y)
  {
    if others != [] {
      assert others == [others[0]] + others[1..] && others[0] in others;
      NoneUnlike(x, others[1..]);
    }
  }

  lemma MergeOneStands(found: seq<Signal>, id: int)
    requires found != [] && forall x :: x in found ==> x.id == id
    ensures MergeOne(found).Composed? <==> AllAlike(found)
    ensures MergeOne(found).Composed? ==> MergeOne(found).value.id == id && StandsFor(MergeOne(found).value, found)
  {
    NoneUnlike(found[0], found[1..]);
    assert found == [found[0]] + found[1..];
    assert found[0] in found;
  }

  lemma {:induction false} MergeIdsStand(signals: seq<Signal>, ids: seq<int>)
    requires Inhabited(signals, ids, IdOf)
    ensures MergeIds(signals, ids).Composed? <==> AgreeAt(signals, ids)
    ensures MergeIds(signals, ids).Composed? ==> Merges(MergeIds(signals, ids).value, signals, ids)
  {
    if ids != [] {
      var n := |ids| - 1;
      var found := At(signals, ids[n], IdOf);
      MergeIdsStand(signals, ids[..n]);
      MergeOneStands(found, ids[n]);
      assert ids == ids[..n] + [ids[n]];
      AgreeMore(signals, ids[..n], ids[n]);
      if MergeIds(signals, ids[..n]).Composed? && MergeOne(found).Composed? {
        MergesMore(MergeIds(signals, ids[..n]).value, signals, ids[..n], MergeOne(found).value, ids[n]);
      }
    }
  }

  lemma AgreeMore(signals: seq<Signal>, ids: seq<int>, id: int)
    ensures AgreeAt(signals, ids + [id]) <==> AgreeAt(signals, ids) && AllAlike(At(signals, id, IdOf))
  {
    assert forall k :: k in ids + [id] <==> k in ids || k == id;
  }

  lemma MergesMore(merged: seq<Signal>, signals: seq<Signal>, ids: seq<int>, one: Signal, id: int)
    requires Merges(merged, signals, ids) && one.id == id && StandsFor(one, At(signals, id, IdOf))
    ensures Merges(merged + [one], signals, ids + [id])
  {
  }

  lemma MergedMember(signals: seq<Signal>, merged: seq<Signal>, ids: seq<int>, m: Signal) returns (x: Signal)
    requires Merges(merged, signals, ids) && m in merged
    ensures x in signals && x.id == m.id && m == x.(spans := m.spans)
  {
    var i :| 0 <= i < |merged| && merged[i] == m;
    x :| x in At(signals, ids[i], IdOf) && m == x.(spans := SpansOf(At(signals, ids[i], IdOf)));
  }

  lemma MemberMerged(signals: seq<Signal>, merged: seq<Signal>, ids: seq<int>, x: Signal) returns (m: Signal)
    requires Merges(merged, signals, ids) && x in signals && x.id in ids
    ensures m in merged && m.id == x.id && SameSignature(m, x)
  {
    var i :| 0 <= i < |ids| && ids[i] == x.id;
    AtHolds(signals, x.id, IdOf, x);
    m := merged[i];
    assert StandsFor(m, At(signals, ids[i], IdOf));
  }

  lemma AlikeConflicts(x: Signal, y: Signal, p: Signal, q: Signal)
    requires SameSignature(x, p) && SameSignature(y, q) && x.name == p.name && y.name == q.name
    ensures SameSignature(x, y) <==> SameSignature(p, q)
    ensures Compatible(x, y) <==> Compatible(p, q)
  {
  }

  lemma CompatibleSignalsAgree(signals: seq<Signal>, ids: seq<int>)
    requires IdsNameOneSignal(signals) && AllCompatible(signals)
    ensures AgreeAt(signals, ids)
  {
    forall id, x, y | id in ids && x in At(signals, id, IdOf) && y in At(signals, id, IdOf)
      ensures SameSignature(x, y)
    {
      assert IdOf(x) == id && IdOf(y) == id;
    }
  }

  lemma MergedNamesAgree(signals: seq<Signal>, merged: seq<Signal>, ids: seq<int>, x: Signal) returns (m: Signal)
    requires Merges(merged, signals, ids) && x in signals && x.id in ids && IdsNameOneSignal(signals)
    ensures m in merged && SameSignature(x, m) && x.name == m.name
  {
    m := MemberMerged(signals, merged, ids, x);
    var y := MergedMember(signals, merged, ids, m);
  }

  lemma MergedCompatible(signals: seq<Signal>, merged: seq<Signal>, ids: seq<int>)
    requires IdsNameOneSignal(signals) && Merges(merged, signals, ids)
    requires forall x :: x in signals ==> x.id in ids
    ensures AllCompatible(merged) <==> AllCompatible(signals)
  {
    if AllCompatible(merged) {
      forall x, y | x in signals && y in signals
        ensures SameSignature(x, y) || Compatible(x, y)
      {
        var p := MergedNamesAgree(signals, merged, ids, x);
        var q := MergedNamesAgree(signals, merged, ids, y);
        AlikeConflicts(x, y, p, q);
      }
    }
    if AllCompatible(signals) {
      forall p, q | p in merged && q in merged
        ensures SameSignature(p, q) || Compatible(p, q)
      {
        var x := MergedMember(signals, merged, ids, p);
        var y := MergedMember(signals, merged, ids, q);
        AlikeConflicts(p, q, x, y);
      }
    }
  }

  lemma MergedAreStrict(merged: seq<Signal>, signals: seq<Signal>, ids: seq<int>) returns (bound: int)
    requires Merges(merged, signals, ids) && Strict(ids, Same)
    ensures Strict(merged, IdOf) && AllBelow(merged, bound)
  {
    bound := if ids == [] then 0 else ids[|ids| - 1] + 1;
    SameIdsAreStrict(merged, ids, bound);
  }

  lemma SameIdsAreStrict(merged: seq<Signal>, ids: seq<int>, bound: int)
    requires |merged| == |ids| && forall i :: 0 <= i < |ids| ==> merged[i].id == ids[i]
    requires Strict(ids, Same) && bound == if ids == [] then 0 else ids[|ids| - 1] + 1
    ensures Strict(merged, IdOf) && AllBelow(merged, bound)
  {
    assert forall i :: 0 <= i < |ids| - 1 ==> Same(ids[i]) < Same(ids[|ids| - 1]);
    assert forall i, j :: 0 <= i < j < |ids| ==> Same(ids[i]) < Same(ids[j]);
  }

  lemma IdsCover(signals: seq<Signal>)
    ensures forall x :: x in signals ==> x.id in SortedKeys(signals, IdOf)
    ensures Strict(SortedKeys(signals, IdOf), Same)
    ensures Inhabited(signals, SortedKeys(signals, IdOf), IdOf)
  {
    SortedKeysAreTheKeys(signals, IdOf);
    forall x | x in signals
      ensures x.id in SortedKeys(signals, IdOf)
    {
      AtHolds(signals, x.id, IdOf, x);
    }
  }

  /** What the fields and aliases are built from: a partition of the merged signals. */
  lemma FieldsComeFromGroups(signals: seq<Signal>) returns (merged: seq<Signal>, groups: seq<Group>)
    requires AgreeAt(signals, SortedKeys(signals, IdOf))
    ensures Merges(merged, signals, SortedKeys(signals, IdOf))
    ensures Partition(groups) && multiset(Flat(groups)) == multiset(merged)
    ensures ComposeFields(signals).Composed? <==> GroupsApart(groups)
    ensures GroupsApart(groups) ==>
              ComposeFields(signals) == Composed(FieldSet(Mapped(groups, FieldOf), AliasesOf(groups)))
  {
    var ids := SortedKeys(signals, IdOf);
    IdsCover(signals);
    MergeIdsStand(signals, ids);
    merged := MergeIds(signals, ids).value;
    var bound := MergedAreStrict(merged, signals, ids);
    GroupedPartitions(merged, bound);
    groups := Grouped(merged);
    SortOfAscending(groups, HeadId);
    ConflictsScanned(groups);
  }

  lemma ComposesWhenAllCompatible(signals: seq<Signal>)
    requires IdsNameOneSignal(signals)
    ensures ComposeFields(signals).Composed? <==> AllCompatible(signals)
  {
    var ids := SortedKeys(signals, IdOf);
    IdsCover(signals);
    MergeIdsStand(signals, ids);
    if AllCompatible(signals) {
      CompatibleSignalsAgree(signals, ids);
    }
    if AgreeAt(signals, ids) {
      var merged, groups := FieldsComeFromGroups(signals);
      SameMembers(Flat(groups), merged);
      ApartMeansCompatible(groups);
      MergedCompatible(signals, merged, ids);
    }
  }

  /** Two definitions fit: they say the same, or they share neither a bit nor a name. */
  predicate Fit(x: Signal, y: Signal) {
    (x.mechanics == y.mechanics && x.table == y.table) || (BitsOf(x) !! BitsOf(y) && x.name != y.name)
  }

  predicate AllFit(signals: seq<Signal>) {
    forall x, y :: x in signals && y in signals ==> Fit(x, y)
  }

  lemma FitIsCompatible(signals: seq<Signal>)
    ensures AllFit(signals) <==> AllCompatible(signals)
  {
    forall x, y
      ensures Fit(x, y) <==> SameSignature(x, y) || Compatible(x, y)
    {
    }
  }

  /** Composition succeeds exactly when any two signals say the same or share neither a bit nor a name. */
  lemma ComposesWhenCompatible(signals: seq<Signal>)
    requires IdsNameOneSignal(signals)
    ensures ComposeFields(signals).Composed? <==> AllFit(signals)
  {
    ComposesWhenAllCompatible(signals);
    FitIsCompatible(signals);
  }

  // ---------------------------------------------------------------- what success guarantees

  predicate FieldsApart(p: Compose.Field, q: Compose.Field) {
    BitsOf(p.representative) !! BitsOf(q.representative) && p.names !! q.names
  }

  function FieldId(field: Compose.Field): int { field.representative.id }

  predicate DisjointFields(fields: seq<Compose.Field>) {
    Strict(fields, FieldId) && forall i, j :: 0 <= i < j < |fields| ==> FieldsApart(fields[i], fields[j])
  }

  lemma FieldBits(p: Group)
    ensures BitsOf(FieldOf(p).representative) == BitsOf(p[0])
  {
  }

  function NamesOf(group: seq<Signal>): set<int> {
    set x | x in group :: x.name
  }

  lemma ApartNames(p: Group, q: Group)
    requires Apart(p, q)
    ensures NamesOf(p) !! NamesOf(q)
  {
    forall name | name in NamesOf(p)
      ensures name !in NamesOf(q)
    {
      var x :| x in p && x.name == name;
      forall y | y in q
        ensures y.name != name
      {
        assert Compatible(x, y);
      }
    }
  }

  lemma HeadsApart(p: Group, q: Group)
    requires Apart(p, q)
    ensures BitsOf(p[0]) !! BitsOf(q[0])
  {
    assert p[0] in p && q[0] in q;
    assert Compatible(p[0], q[0]);
  }

  lemma GroupFieldsApart(p: Group, q: Group)
    requires Apart(p, q)
    ensures FieldsApart(FieldOf(p), FieldOf(q))
  {
    HeadsApart(p, q);
    FieldBits(p);
    FieldBits(q);
    ApartNames(p, q);
    assert FieldOf(p).names == NamesOf(p) && FieldOf(q).names == NamesOf(q);
  }

  /** The fields of a composed message share no bit and no name, and are in strict identity order. */
  lemma ComposedFieldsAreDisjoint(signals: seq<Signal>)
    requires ComposeFields(signals).Composed?
    ensures DisjointFields(ComposeFields(signals).value.fields)
  {
    IdsCover(signals);
    MergeIdsStand(signals, SortedKeys(signals, IdOf));
    var merged, groups := FieldsComeFromGroups(signals);
    GroupsMakeDisjointFields(groups);
  }

  lemma GroupsMakeDisjointFields(groups: seq<Group>)
    requires Partition(groups) && GroupsApart(groups)
    ensures DisjointFields(Mapped(groups, FieldOf))
  {
    forall i, j | 0 <= i < j < |groups|
      ensures FieldsApart(FieldOf(groups[i]), FieldOf(groups[j]))
    {
      GroupFieldsApart(groups[i], groups[j]);
    }
    assert forall i, j :: 0 <= i < j < |groups| ==> HeadId(groups[i]) < HeadId(groups[j]);
  }

  function OriginalOf(alias: Alias): int { alias.original }

  /** The alias describes this signal, as a member of the group it names. */
  predicate AliasOfMember(alias: Alias, x: Signal, group: seq<Signal>, representative: int) {
    alias == Alias(FieldAlias, representative, x.source, x.name, x.id, x.spans) && x in group
  }

  lemma {:induction false} GroupAliases(representative: int, group: seq<Signal>)
    ensures var r := FieldAliases(representative, group);
            |r| == |group| &&
            forall k :: 0 <= k < |r| ==> AliasOfMember(r[k], group[k], group, representative)
  {
    if group != [] {
      GroupAliases(representative, group[..|group| - 1]);
    }
  }

  predicate AliasInGroups(alias: Alias, x: Signal, groups: seq<Group>) {
    exists i :: 0 <= i < |groups| && AliasOfMember(alias, x, groups[i], HeadId(groups[i]))
  }

  lemma AliasInMore(alias: Alias, x: Signal, groups: seq<Group>, i: nat)
    requires i <= |groups| && AliasInGroups(alias, x, groups[..i])
    ensures AliasInGroups(alias, x, groups)
  {
    var j :| 0 <= j < i && AliasOfMember(alias, x, groups[..i][j], HeadId(groups[..i][j]));
    assert groups[..i][j] == groups[j];
  }

  lemma {:induction false} AliasesFollowGroups(groups: seq<Group>)
    ensures |AliasesOf(groups)| == |Flat(groups)|
    ensures forall k :: 0 <= k < |Flat(groups)| ==> AliasInGroups(AliasesOf(groups)[k], Flat(groups)[k], groups)
  {
    if groups != [] {
      var n := |groups| - 1;
      var group := groups[n];
      AliasesFollowGroups(groups[..n]);
      GroupAliases(HeadId(group), group);
      forall k | 0 <= k < |Flat(groups)|
        ensures AliasInGroups(AliasesOf(groups)[k], Flat(groups)[k], groups)
      {
        if k < |Flat(groups[..n])| {
          AliasInMore(AliasesOf(groups)[k], Flat(groups)[k], groups, n);
        } else {
          assert AliasOfMember(AliasesOf(groups)[k], Flat(groups)[k], group, HeadId(group));
        }
      }
    }
  }

  /** The field carries the alias: its representative, the original's name, and the original's mechanics and table. */
  predicate Survives(alias: Alias, signals: seq<Signal>, field: Compose.Field) {
    FieldId(field) == alias.representative && alias.name in field.names &&
    forall x :: x in signals && x.id == alias.original ==> SameSignature(field.representative, x)
  }

  lemma AliasSurvives(signals: seq<Signal>, merged: seq<Signal>, ids: seq<int>, groups: seq<Group>, alias: Alias, x: Signal)
      returns (i: nat)
    requires Merges(merged, signals, ids) && Partition(groups) && x in merged
    requires AliasInGroups(alias, x, groups)
    ensures i < |groups| && Survives(alias, signals, FieldOf(groups[i]))
  {
    i :| 0 <= i < |groups| && AliasOfMember(alias, x, groups[i], HeadId(groups[i]));
    assert SameSignature(groups[i][0], x);
    var k :| 0 <= k < |merged| && merged[k] == x;
    forall y | y in signals && y.id == alias.original
      ensures SameSignature(groups[i][0], y)
    {
      AtHolds(signals, x.id, IdOf, y);
      assert StandsFor(merged[k], At(signals, ids[k], IdOf));
    }
  }

  predicate HasSurvivor(alias: Alias, signals: seq<Signal>, fields: seq<Compose.Field>) {
    exists i :: 0 <= i < |fields| && Survives(alias, signals, fields[i])
  }

  /** Every original identity is the alias of exactly one surviving field, which agrees with it. */
  lemma EveryOriginalHasOneSurvivor(signals: seq<Signal>)
    requires ComposeFields(signals).Composed?
    ensures var r := ComposeFields(signals).value;
            multiset(Mapped(r.aliases, OriginalOf)) == multiset(SortedKeys(signals, IdOf)) &&
            forall k :: 0 <= k < |r.aliases| ==> HasSurvivor(r.aliases[k], signals, r.fields)
  {
    var ids := SortedKeys(signals, IdOf);
    IdsCover(signals);
    MergeIdsStand(signals, ids);
    var merged, groups := FieldsComeFromGroups(signals);
    AliasesFollowGroups(groups);
    var aliases, flat := AliasesOf(groups), Flat(groups);
    OriginalsAreIds(groups, merged, signals, ids);
    forall k | 0 <= k < |aliases|
      ensures HasSurvivor(aliases[k], signals, Mapped(groups, FieldOf))
    {
      assert flat[k] in multiset(merged);
      var i := AliasSurvives(signals, merged, ids, groups, aliases[k], flat[k]);
      assert Mapped(groups, FieldOf)[i] == FieldOf(groups[i]);
    }
  }

  lemma OriginalsAreIds(groups: seq<Group>, merged: seq<Signal>, signals: seq<Signal>, ids: seq<int>)
    requires Merges(merged, signals, ids) && multiset(Flat(groups)) == multiset(merged)
    ensures multiset(Mapped(AliasesOf(groups), OriginalOf)) == multiset(ids)
  {
    AliasesFollowGroups(groups);
    MappedIgnoresOrder(Flat(groups), merged, IdOf);
    assert Mapped(merged, IdOf) == ids;
    forall k | 0 <= k < |Flat(groups)|
      ensures AliasesOf(groups)[k].original == Flat(groups)[k].id
    {
      var i :| 0 <= i < |groups| && AliasOfMember(AliasesOf(groups)[k], Flat(groups)[k], groups[i], HeadId(groups[i]));
    }
    assert Mapped(AliasesOf(groups), OriginalOf) == Mapped(Flat(groups), IdOf);
  }

  // ---------------------------------------------------------------- the whole result

  lemma FragmentsShareKey(entries: seq<Entry>, key: int)
    ensures forall x :: x in Fragments(entries, key) ==> x in entries && x.key == key
  {
    SortByOrders(At(entries, key, KeyOf), MessageId);
    SameMembers(Fragments(entries, key), At(entries, key, KeyOf));
    assert forall x :: x in At(entries, key, KeyOf) ==> KeyOf(x) == key;
  }

  predicate SoundAt(messages: seq<ComposedMessage>, key: int) {
    |messages| == 1 && messages[0].key == key && DisjointFields(messages[0].fields)
  }

  lemma KeyIsSound(entries: seq<Entry>, key: int)
    requires At(entries, key, KeyOf) != [] && ComposeKey(Fragments(entries, key)).Composed?
    ensures SoundAt(ComposeKey(Fragments(entries, key)).value.messages, key)
  {
    var fragments := Fragments(entries, key);
    FragmentsShareKey(entries, key);
    assert fragments[0] in fragments;
    ComposedFieldsAreDisjoint(SignalsOf(fragments));
  }

  predicate Sound(messages: seq<ComposedMessage>, keys: seq<int>) {
    |messages| == |keys| &&
    forall i :: 0 <= i < |keys| ==> messages[i].key == keys[i] && DisjointFields(messages[i].fields)
  }

  lemma KeyHasOneMessage(entries: seq<Entry>, key: int)
    requires At(entries, key, KeyOf) != [] && ComposeKey(Fragments(entries, key)).Composed?
    ensures |ComposeKey(Fragments(entries, key)).value.messages| == 1
  {
  }

  /** Each outcome that is composed holds one message. */
  predicate SingleMessages(outcomes: seq<Outcome<Result>>) {
    forall o :: o in outcomes && o.Composed? ==> |o.value.messages| == 1
  }

  /** The collected messages are those of the outcomes, one each, in their order. */
  lemma {:induction false} CollectedMessages(outcomes: seq<Outcome<Result>>, i: nat)
    requires Collected(outcomes).Composed? && SingleMessages(outcomes)
    ensures |Collected(outcomes).value.messages| == |outcomes|
    ensures i < |outcomes| ==> outcomes[i].Composed? && outcomes[i].value.messages == [Collected(outcomes).value.messages[i]]
    decreases |outcomes|
  {
    if outcomes != [] {
      var n := |outcomes| - 1;
      assert outcomes[n] in outcomes;
      CollectedMessages(outcomes[..n], i);
    }
  }

  /** The message of one key, which is composed whenever all are. */
  predicate IsMessageOf(message: ComposedMessage, entries: seq<Entry>, key: int) {
    At(entries, key, KeyOf) != [] && ComposeKey(Fragments(entries, key)).Composed? &&
    ComposeKey(Fragments(entries, key)).value.messages == [message]
  }

  lemma OutcomesAreSingle(entries: seq<Entry>, keys: seq<int>)
    requires Inhabited(entries, keys, KeyOf)
    ensures SingleMessages(OutcomesOf(entries, keys))
  {
    var outcomes := OutcomesOf(entries, keys);
    forall o | o in outcomes && o.Composed?
      ensures |o.value.messages| == 1
    {
      var i :| 0 <= i < |keys| && outcomes[i] == o;
      KeyHasOneMessage(entries, keys[i]);
    }
  }

  lemma KeysAreSound(entries: seq<Entry>, keys: seq<int>)
    requires Inhabited(entries, keys, KeyOf) && Collected(OutcomesOf(entries, keys)).Composed?
    ensures Sound(Collected(OutcomesOf(entries, keys)).value.messages, keys)
  {
    var outcomes := OutcomesOf(entries, keys);
    OutcomesAreSingle(entries, keys);
    CollectedMessages(outcomes, 0);
    forall i | 0 <= i < |keys|
      ensures Collected(outcomes).value.messages[i].key == keys[i]
      ensures DisjointFields(Collected(outcomes).value.messages[i].fields)
    {
      CollectedMessages(outcomes, i);
      MessageIsSound(Collected(outcomes).value.messages[i], entries, keys[i]);
    }
  }

  lemma MessageIsSound(message: ComposedMessage, entries: seq<Entry>, key: int)
    requires IsMessageOf(message, entries, key)
    ensures message.key == key && DisjointFields(message.fields)
  {
    KeyIsSound(entries, key);
  }

  /** One message for each wire identity in use, in strict order, each with pairwise disjoint fields. */
  lemma CompositionIsSound(entries: seq<Entry>)
    requires Compose.Compose(entries).Composed?
    ensures Sound(Compose.Compose(entries).value.messages, SortedKeys(entries, KeyOf))
    ensures Strict(SortedKeys(entries, KeyOf), Same)
    ensures forall e :: e in entries ==> e.key in SortedKeys(entries, KeyOf)
  {
    SortedKeysAreTheKeys(entries, KeyOf);
    KeysAreSound(entries, SortedKeys(entries, KeyOf));
    forall e | e in entries
      ensures e.key in SortedKeys(entries, KeyOf)
    {
      AtHolds(entries, e.key, KeyOf, e);
    }
  }
}
