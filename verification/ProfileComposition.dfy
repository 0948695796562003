/** How profile validation composes the fields of one message, and why it leaves a composed message alone. */
module ProfileComposition {
  import opened SortedLists
  import B = BitCoordinates
  import C = Compose
  import L = ComposeLaws

  datatype ProfileField = ProfileField(id: int, name: int, sources: set<int>, mechanics: C.Mechanics, table: seq<C.ValueLabel>)

  function MechanicBits(m: C.Mechanics): set<int> {
    set p | p in B.Positions(m.start, m.length, m.order)
  }

  function Bits(field: ProfileField): set<int> {
    MechanicBits(field.mechanics)
  }

  /** Signatures sort the value table, so its order does not matter here. */
  predicate SameSignature(x: ProfileField, y: ProfileField) {
    x.mechanics == y.mechanics && multiset(x.table) == multiset(y.table)
  }

  predicate Overlap(x: ProfileField, y: ProfileField) {
    Bits(x) * Bits(y) != {}
  }

  /** Fields overlap when some bit position belongs to both. */
  lemma OverlapIsASharedBit(x: ProfileField, y: ProfileField)
    ensures Overlap(x, y) <==> exists p :: Occupies(x.mechanics, p) && Occupies(y.mechanics, p)
  {
    if Overlap(x, y) {
      var p :| p in Bits(x) * Bits(y);
      assert Occupies(x.mechanics, p) && Occupies(y.mechanics, p);
    }
    if p :| Occupies(x.mechanics, p) && Occupies(y.mechanics, p) {
      assert p in Bits(x) && p in Bits(y);
      assert p in Bits(x) * Bits(y);
    }
  }

  predicate Occupies(m: C.Mechanics, p: int) {
    p in B.Positions(m.start, m.length, m.order)
  }

  predicate Contradict(x: ProfileField, y: ProfileField) {
    Overlap(x, y) && !SameSignature(x, y)
  }

  predicate Occupied(fields: seq<ProfileField>) {
    forall i :: 0 <= i < |fields| ==> fields[i].mechanics.length > 0
  }

  predicate Contradictory(fields: seq<ProfileField>) {
    exists i, j :: 0 <= i < j < |fields| && Contradict(fields[i], fields[j])
  }

  /** No earlier field overlaps field `i`. */
  predicate IsFirst(fields: seq<ProfileField>, i: nat) {
    i < |fields| &&
    forall j :: 0 <= j < i ==> !Overlap(fields[j], fields[i])
  }

  lemma FrontFirsts(fields: seq<ProfileField>)
    requires fields != []
    ensures forall i :: 0 <= i < |fields| - 1 ==> (IsFirst(fields[..|fields| - 1], i) <==> IsFirst(fields, i))
  {
  }

  function Firsts(fields: seq<ProfileField>): (r: seq<nat>)
    ensures forall k :: 0 <= k < |r| ==> r[k] < |fields| && IsFirst(fields, r[k])
    ensures forall i :: 0 <= i < |fields| && IsFirst(fields, i) ==> i in r
    ensures forall k, l :: 0 <= k < l < |r| ==> r[k] < r[l]
  {
    if fields == [] then []
    else
      var n := |fields| - 1;
      var r := Firsts(fields[..n]);
      FrontFirsts(fields);
      if IsFirst(fields, n) then r + [n] else r
  }

  /** The sources of every field that overlaps field `i`. */
  function SourcesAt(fields: seq<ProfileField>, i: nat): set<int>
    requires i < |fields|
  {
    set j, s | 0 <= j < |fields| && Overlap(fields[i], fields[j]) && s in fields[j].sources :: s
  }

  /** The surviving fields: the first of each overlapping family, with the family's sources. */
  function Survivors(fields: seq<ProfileField>): (r: seq<ProfileField>)
    ensures |r| == |Firsts(fields)|
    ensures forall k :: 0 <= k < |r| ==> r[k] == fields[Firsts(fields)[k]].(sources := SourcesAt(fields, Firsts(fields)[k]))
  {
    seq(|Firsts(fields)|, k requires 0 <= k < |Firsts(fields)| =>
      fields[Firsts(fields)[k]].(sources := SourcesAt(fields, Firsts(fields)[k])))
  }

  /** Field `j`, overlapping the first field `i` of its family, is an alias of it. */
  predicate AliasAt(aliases: map<int, int>, fields: seq<ProfileField>, i: nat, j: nat) {
    i < |fields| && j < |fields| &&
    (IsFirst(fields, i) && Overlap(fields[i], fields[j]) ==> MapsTo(aliases, fields[j].id, fields[i].id))
  }

  predicate MapsTo(aliases: map<int, int>, id: int, survivor: int) {
    id in aliases && aliases[id] == survivor
  }

  predicate Aliased(aliases: map<int, int>, fields: seq<ProfileField>) {
    forall i, j :: 0 <= i < |fields| && 0 <= j < |fields| ==> AliasAt(aliases, fields, i, j)
  }

  datatype Regrouping = Contradiction(field: ProfileField, existing: ProfileField) | Regrouped(fields: seq<ProfileField>, aliases: map<int, int>)

  function IdOf(field: ProfileField): int { field.id }

  lemma SelfOverlap(x: ProfileField)
    requires x.mechanics.length > 0
    ensures Overlap(x, x)
  {
    assert B.Positions(x.mechanics.start, x.mechanics.length, x.mechanics.order)[0] in Bits(x) * Bits(x);
  }

  lemma OverlapIsSymmetric(x: ProfileField, y: ProfileField)
    ensures Overlap(x, y) <==> Overlap(y, x)
  {
    assert Bits(x) * Bits(y) == Bits(y) * Bits(x);
  }

  predicate Agrees(fields: seq<ProfileField>) {
    Occupied(fields) && !Contradictory(fields)
  }

  lemma AgreeingPair(fields: seq<ProfileField>, i: nat, j: nat)
    requires Agrees(fields) && i < |fields| && j < |fields| && Overlap(fields[i], fields[j])
    ensures SameSignature(fields[i], fields[j]) && Bits(fields[i]) == Bits(fields[j])
  {
    OverlapIsSymmetric(fields[i], fields[j]);
    if i < j {
      assert !Contradict(fields[i], fields[j]);
    } else if j < i {
      assert !Contradict(fields[j], fields[i]);
    }
  }

  /** Where nothing contradicts, every field overlaps a survivor. */
  lemma {:induction false} FirstOf(fields: seq<ProfileField>, j: nat) returns (i: nat)
    requires Agrees(fields) && j < |fields|
    ensures i <= j && IsFirst(fields, i) && Bits(fields[i]) == Bits(fields[j])
    ensures SameSignature(fields[i], fields[j]) && Overlap(fields[i], fields[j])
    decreases j
  {
    if IsFirst(fields, j) {
      i := j;
      SelfOverlap(fields[j]);
    } else {
      var h :| 0 <= h < j && Overlap(fields[h], fields[j]);
      AgreeingPair(fields, h, j);
      i := FirstOf(fields, h);
    }
  }

  lemma FirstsAgree(fields: seq<ProfileField>, i: nat, j: nat)
    requires Agrees(fields) && i < |fields| && j < |fields| && IsFirst(fields, i) && IsFirst(fields, j)
    requires Overlap(fields[i], fields[j])
    ensures i == j
  {
    OverlapIsSymmetric(fields[i], fields[j]);
  }

  // ---------------------------------------------------------------- one more field

  predicate ClearOf(fields: seq<ProfileField>, x: ProfileField) {
    forall k :: 0 <= k < |Firsts(fields)| ==> !Contradict(fields[Firsts(fields)[k]], x)
  }

  /** Comparing with the survivors only is enough. */
  lemma SurvivorsDecide(fields: seq<ProfileField>, x: ProfileField)
    requires Agrees(fields) && x.mechanics.length > 0
    ensures ClearOf(fields, x) <==> Agrees(fields + [x])
  {
    var all := fields + [x];
    var n := |fields|;
    if Agrees(all) {
      forall k | 0 <= k < |Firsts(fields)|
        ensures !Contradict(fields[Firsts(fields)[k]], x)
      {
        assert all[Firsts(fields)[k]] == fields[Firsts(fields)[k]] && all[n] == x;
      }
    }
    if ClearOf(fields, x) {
      forall i, j | 0 <= i < j < |all|
        ensures !Contradict(all[i], all[j])
      {
        if j < n {
          assert !Contradict(fields[i], fields[j]);
        } else {
          var f := FirstOf(fields, i);
          var k :| 0 <= k < |Firsts(fields)| && Firsts(fields)[k] == f;
          assert !Contradict(fields[Firsts(fields)[k]], x);
        }
      }
    }
  }

  lemma FirstsGrow(fields: seq<ProfileField>, x: ProfileField)
    ensures Firsts(fields + [x]) ==
            Firsts(fields) + (if IsFirst(fields + [x], |fields|) then [|fields|] else [])
  {
    var all := fields + [x];
    assert all[..|all| - 1] == fields;
    var grown := if IsFirst(all, |fields|) then [|fields|] else [];
    assert Firsts(all) == Firsts(all[..|all| - 1]) + grown;
  }

  lemma SourcesGrow(fields: seq<ProfileField>, x: ProfileField, i: nat)
    requires i < |fields|
    ensures SourcesAt(fields + [x], i) == SourcesAt(fields, i) + (if Overlap(fields[i], x) then x.sources else {})
  {
    var all := fields + [x];
    assert forall j :: 0 <= j < |fields| ==> all[j] == fields[j];
    assert all[|fields|] == x;
    forall s
      ensures s in SourcesAt(all, i) <==> s in SourcesAt(fields, i) + (if Overlap(fields[i], x) then x.sources else {})
    {
      if s in SourcesAt(fields, i) {
        var j :| 0 <= j < |fields| && Overlap(fields[i], fields[j]) && s in fields[j].sources;
        assert all[j] == fields[j];
      }
    }
  }

  lemma OnlyOwnSources(fields: seq<ProfileField>, x: ProfileField)
    requires x.mechanics.length > 0 && IsFirst(fields + [x], |fields|)
    ensures SourcesAt(fields + [x], |fields|) == x.sources
  {
    var all := fields + [x];
    SelfOverlap(x);
    assert all[|fields|] == x;
    forall j | 0 <= j < |fields|
      ensures !Overlap(x, all[j])
    {
      OverlapIsSymmetric(all[j], x);
    }
    forall s
      ensures s in SourcesAt(all, |fields|) <==> s in x.sources
    {
      if s in x.sources {
        assert Overlap(x, all[|fields|]);
      }
    }
  }

  predicate OverlapsNoSurvivor(fields: seq<ProfileField>, x: ProfileField) {
    forall k :: 0 <= k < |Firsts(fields)| ==> !Overlap(fields[Firsts(fields)[k]], x)
  }

  lemma NewIsFirst(fields: seq<ProfileField>, x: ProfileField)
    requires Agrees(fields) && OverlapsNoSurvivor(fields, x)
    ensures IsFirst(fields + [x], |fields|)
  {
    forall j | 0 <= j < |fields|
      ensures !Overlap(fields[j], x)
    {
      var f := FirstOf(fields, j);
      var k :| 0 <= k < |Firsts(fields)| && Firsts(fields)[k] == f;
    }
  }

  /** A field that overlaps no survivor survives. */
  lemma NewSurvivor(fields: seq<ProfileField>, x: ProfileField)
    requires Agrees(fields) && x.mechanics.length > 0 && OverlapsNoSurvivor(fields, x)
    ensures IsFirst(fields + [x], |fields|)
    ensures Survivors(fields + [x]) == Survivors(fields) + [x]
  {
    var all := fields + [x];
    NewIsFirst(fields, x);
    FirstsGrow(fields, x);
    OnlyOwnSources(fields, x);
    forall k | 0 <= k < |Firsts(fields)|
      ensures Survivors(all)[k] == Survivors(fields)[k]
    {
      SourcesGrow(fields, x, Firsts(fields)[k]);
      assert !Overlap(fields[Firsts(fields)[k]], x);
    }
  }

  /** A field that overlaps a survivor adds its sources to that one only. */
  lemma OldSurvivor(fields: seq<ProfileField>, x: ProfileField, d: nat)
    requires Agrees(fields + [x]) && Agrees(fields) && d < |Firsts(fields)| && Overlap(fields[Firsts(fields)[d]], x)
    ensures var old_ := Survivors(fields)[d];
            Survivors(fields + [x]) == Survivors(fields)[d := old_.(sources := old_.sources + x.sources)]
    ensures !IsFirst(fields + [x], |fields|)
    ensures forall k :: 0 <= k < |Firsts(fields)| && Overlap(fields[Firsts(fields)[k]], x) ==> k == d
  {
    var all := fields + [x];
    var n := |fields|;
    assert all[n] == x && all[Firsts(fields)[d]] == fields[Firsts(fields)[d]];
    FirstsGrow(fields, x);
    forall k | 0 <= k < |Firsts(fields)|
      ensures Overlap(fields[Firsts(fields)[k]], x) <==> k == d
    {
      if Overlap(fields[Firsts(fields)[k]], x) {
        AgreeingPair(all, Firsts(fields)[k], n);
        AgreeingPair(all, Firsts(fields)[d], n);
        SelfOverlap(fields[Firsts(fields)[d]]);
        FirstsAgree(fields, Firsts(fields)[k], Firsts(fields)[d]);
      }
    }
    forall k | 0 <= k < |Firsts(fields)|
      ensures Survivors(all)[k] == Survivors(fields)[d := Survivors(all)[d]][k]
    {
      SourcesGrow(fields, x, Firsts(fields)[k]);
    }
    SourcesGrow(fields, x, Firsts(fields)[d]);
  }

  lemma OldAlias(fields: seq<ProfileField>, x: ProfileField, aliases: map<int, int>, survivor: int, i: nat, j: nat)
    requires Aliased(aliases, fields) && DistinctKeys(fields + [x], IdOf) && i < |fields| && j < |fields|
    ensures AliasAt(aliases[x.id := survivor], fields + [x], i, j)
  {
    var all := fields + [x];
    assert IdOf(all[j]) != IdOf(all[|fields|]);
    assert forall h :: 0 <= h < i ==> all[h] == fields[h];
    assert AliasAt(aliases, fields, i, j);
  }

  lemma AliasOfNew(fields: seq<ProfileField>, x: ProfileField, aliases: map<int, int>)
    requires Aliased(aliases, fields) && IsFirst(fields + [x], |fields|) && DistinctKeys(fields + [x], IdOf)
    ensures Aliased(aliases[x.id := x.id], fields + [x])
  {
    var all, more := fields + [x], aliases[x.id := x.id];
    forall i, j | 0 <= i < |all| && 0 <= j < |all|
      ensures AliasAt(more, all, i, j)
    {
      if i < |fields| && j < |fields| {
        OldAlias(fields, x, aliases, x.id, i, j);
      } else {
        OverlapIsSymmetric(all[i], all[j]);
        assert j < |fields| ==> !Overlap(all[j], all[|fields|]);
        assert i < |fields| ==> !Overlap(all[i], all[|fields|]);
      }
    }
  }

  lemma AliasOfOld(fields: seq<ProfileField>, x: ProfileField, d: nat, aliases: map<int, int>)
    requires Agrees(fields + [x]) && Agrees(fields) && d < |Firsts(fields)| && Overlap(fields[Firsts(fields)[d]], x)
    requires Aliased(aliases, fields) && DistinctKeys(fields + [x], IdOf)
    ensures Aliased(aliases[x.id := fields[Firsts(fields)[d]].id], fields + [x])
  {
    var all := fields + [x];
    var survivor := fields[Firsts(fields)[d]].id;
    var more := aliases[x.id := survivor];
    OldSurvivor(fields, x, d);
    forall i, j | 0 <= i < |all| && 0 <= j < |all|
      ensures AliasAt(more, all, i, j)
    {
      if i < |fields| && j < |fields| {
        OldAlias(fields, x, aliases, survivor, i, j);
      } else if i < |fields| && IsFirst(all, i) && Overlap(all[i], all[j]) {
        assert IsFirst(fields, i);
        var k :| 0 <= k < |Firsts(fields)| && Firsts(fields)[k] == i;
        assert all[i] == fields[Firsts(fields)[k]] && all[j] == x;
      }
    }
  }

  lemma SurvivorsLook(fields: seq<ProfileField>, x: ProfileField, k: nat)
    requires k < |Survivors(fields)|
    ensures Overlap(Survivors(fields)[k], x) <==> Overlap(fields[Firsts(fields)[k]], x)
    ensures Contradict(Survivors(fields)[k], x) <==> Contradict(fields[Firsts(fields)[k]], x)
    ensures Survivors(fields)[k].id == fields[Firsts(fields)[k]].id
  {
  }

  // ---------------------------------------------------------------- the loop

  predicate ComposedSoFar(fields: seq<ProfileField>, result: seq<ProfileField>, aliases: map<int, int>) {
    Agrees(fields) && result == Survivors(fields) && Aliased(aliases, fields)
  }

  predicate NoneOverlaps(result: seq<ProfileField>, count: nat, x: ProfileField) {
    count <= |result| &&
    forall k :: 0 <= k < count ==> !Overlap(result[k], x)
  }

  predicate NoneContradicts(result: seq<ProfileField>, count: nat, x: ProfileField) {
    count <= |result| &&
    forall k :: 0 <= k < count ==> !Contradict(result[k], x)
  }

  lemma StepContradicts(fields: seq<ProfileField>, x: ProfileField, k: nat)
    requires k < |Survivors(fields)| && Contradict(Survivors(fields)[k], x)
    ensures Contradictory(fields + [x])
  {
    SurvivorsLook(fields, x, k);
    var all := fields + [x];
    assert Contradict(all[Firsts(fields)[k]], all[|fields|]);
  }

  lemma StepAgrees(fields: seq<ProfileField>, x: ProfileField)
    requires Agrees(fields) && x.mechanics.length > 0
    requires NoneContradicts(Survivors(fields), |Survivors(fields)|, x)
    ensures Agrees(fields + [x])
  {
    forall k | 0 <= k < |Firsts(fields)|
      ensures !Contradict(fields[Firsts(fields)[k]], x)
    {
      SurvivorsLook(fields, x, k);
      assert !Contradict(Survivors(fields)[k], x);
    }
    SurvivorsDecide(fields, x);
  }

  lemma StepOld(fields: seq<ProfileField>, x: ProfileField, result: seq<ProfileField>, aliases: map<int, int>, d: nat)
    requires ComposedSoFar(fields, result, aliases) && x.mechanics.length > 0 && DistinctKeys(fields + [x], IdOf)
    requires NoneContradicts(result, |result|, x) && d < |result| && Overlap(result[d], x)
    ensures ComposedSoFar(fields + [x], result[d := result[d].(sources := result[d].sources + x.sources)],
                          aliases[x.id := result[d].id])
  {
    StepAgrees(fields, x);
    SurvivorsLook(fields, x, d);
    OldSurvivor(fields, x, d);
    AliasOfOld(fields, x, d, aliases);
  }

  lemma StepNew(fields: seq<ProfileField>, x: ProfileField, result: seq<ProfileField>, aliases: map<int, int>)
    requires ComposedSoFar(fields, result, aliases) && x.mechanics.length > 0 && DistinctKeys(fields + [x], IdOf)
    requires NoneOverlaps(result, |result|, x)
    ensures ComposedSoFar(fields + [x], result + [x], aliases[x.id := x.id])
  {
    StepAgrees(fields, x);
    forall k | 0 <= k < |Firsts(fields)|
      ensures !Overlap(fields[Firsts(fields)[k]], x)
    {
      SurvivorsLook(fields, x, k);
    }
    NewSurvivor(fields, x);
    AliasOfNew(fields, x, aliases);
  }

  /** Stops at the first contradiction; else finds an overlapping survivor, or one past the last. */
  method Compare(result: seq<ProfileField>, field: ProfileField) returns (contradicts: bool, duplicate: nat)
    ensures contradicts ==> duplicate < |result| && Contradict(result[duplicate], field)
    ensures !contradicts ==> duplicate <= |result| && NoneContradicts(result, |result|, field)
    ensures !contradicts ==>
              if duplicate < |result| then Overlap(result[duplicate], field) else NoneOverlaps(result, |result|, field)
  {
    contradicts, duplicate := false, |result|;
    for k := 0 to |result|
      invariant duplicate <= |result| && NoneContradicts(result, k, field)
      invariant if duplicate < |result| then Overlap(result[duplicate], field) else NoneOverlaps(result, k, field)
    {
      if Overlap(result[k], field) && !SameSignature(result[k], field) {
        return true, k;
      }
      if Overlap(result[k], field) {
        duplicate := k;
      }
    }
  }

  /**
    Composes the identity-ordered fields of one message: fails exactly when two
    fields overlap with different mechanics, else keeps one of each family.
   */
  method ComposeGroup(sorted: seq<ProfileField>) returns (r: Regrouping)
    requires Occupied(sorted) && DistinctKeys(sorted, IdOf)
    ensures r.Contradiction? <==> Contradictory(sorted)
    ensures r.Contradiction? ==> Contradict(r.existing, r.field) && r.field in sorted
    ensures r.Regrouped? ==> r.fields == Survivors(sorted) && Aliased(r.aliases, sorted)
  {
    var result: seq<ProfileField> := [];
    var aliases: map<int, int> := map[];
    for n := 0 to |sorted|
      invariant ComposedSoFar(sorted[..n], result, aliases)
    {
      var field := sorted[n];
      assert sorted[..n] + [field] == sorted[..n + 1];
      var contradicts, duplicate := Compare(result, field);
      if contradicts {
        StepContradicts(sorted[..n], field, duplicate);
        PrefixContradicts(sorted, n + 1);
        return Contradiction(field, result[duplicate]);
      }
      if duplicate < |result| {
        StepOld(sorted[..n], field, result, aliases, duplicate);
        aliases := aliases[field.id := result[duplicate].id];
        result := result[duplicate := result[duplicate].(sources := result[duplicate].sources + field.sources)];
      } else {
        StepNew(sorted[..n], field, result, aliases);
        result := result + [field];
        aliases := aliases[field.id := field.id];
      }
    }
    assert sorted[..|sorted|] == sorted;
    return Regrouped(result, aliases);
  }

  lemma PrefixContradicts(fields: seq<ProfileField>, n: nat)
    requires n <= |fields| && Contradictory(fields[..n])
    ensures Contradictory(fields)
  {
    var i, j :| 0 <= i < j < n && Contradict(fields[..n][i], fields[..n][j]);
    assert Contradict(fields[i], fields[j]);
  }

  // ---------------------------------------------------------------- composing twice

  predicate Disjoint(fields: seq<ProfileField>) {
    forall i, j :: 0 <= i < j < |fields| ==> !Overlap(fields[i], fields[j])
  }

  lemma {:induction false} DisjointStays(fields: seq<ProfileField>)
    requires Occupied(fields) && Disjoint(fields)
    ensures Survivors(fields) == fields && !Contradictory(fields)
  {
    if fields != [] {
      var front, last := fields[..|fields| - 1], fields[|fields| - 1];
      DisjointStays(front);
      assert fields == front + [last];
      NewSurvivor(front, last);
    }
  }

  lemma SurvivorsAreDisjoint(fields: seq<ProfileField>)
    ensures Disjoint(Survivors(fields))
  {
    forall k, l | 0 <= k < l < |Firsts(fields)|
      ensures !Overlap(Survivors(fields)[k], Survivors(fields)[l])
    {
      assert IsFirst(fields, Firsts(fields)[l]) && Firsts(fields)[k] < Firsts(fields)[l];
    }
  }

  /** Composition changes nothing exactly when no two fields overlap; a second composition never does. */
  lemma IdentityWhenDisjoint(fields: seq<ProfileField>)
    requires Occupied(fields)
    ensures Survivors(fields) == fields <==> Disjoint(fields)
    ensures Survivors(Survivors(fields)) == Survivors(fields)
  {
    SurvivorsAreDisjoint(fields);
    if Disjoint(fields) {
      DisjointStays(fields);
    }
    DisjointStays(Survivors(fields));
  }

  lemma IdentityAliases(fields: seq<ProfileField>, aliases: map<int, int>)
    requires Occupied(fields) && Disjoint(fields) && Aliased(aliases, fields)
    ensures forall i :: 0 <= i < |fields| ==> MapsTo(aliases, fields[i].id, fields[i].id)
  {
    forall i | 0 <= i < |fields|
      ensures MapsTo(aliases, fields[i].id, fields[i].id)
    {
      SelfOverlap(fields[i]);
      assert IsFirst(fields, i);
      assert AliasAt(aliases, fields, i, i);
    }
  }

  /** The profile field an import writes for a composed field. */
  function Imported(field: C.Field): ProfileField {
    var s := field.representative;
    ProfileField(s.id, s.name, field.sources, s.mechanics, s.table)
  }

  function ImportedFields(fields: seq<C.Field>): (r: seq<ProfileField>)
    ensures |r| == |fields|
    ensures forall i :: 0 <= i < |fields| ==> r[i] == Imported(fields[i])
  {
    seq(|fields|, i requires 0 <= i < |fields| => Imported(fields[i]))
  }

  lemma ImportedBits(field: C.Field)
    ensures Bits(Imported(field)) == C.BitsOf(field.representative)
  {
  }

  /** Validation's own composition leaves a composed message as it is: order, fields and aliases. */
  lemma ValidationKeepsComposedFields(signals: seq<C.Signal>, fields: seq<ProfileField>)
    requires C.ComposeFields(signals).Composed?
    requires fields == ImportedFields(C.ComposeFields(signals).value.fields) && Occupied(fields)
    ensures SortBy(fields, IdOf) == fields && DistinctKeys(fields, IdOf)
    ensures !Contradictory(fields) && Survivors(fields) == fields
    ensures forall aliases, i :: Aliased(aliases, fields) && 0 <= i < |fields| ==> MapsTo(aliases, fields[i].id, fields[i].id)
  {
    var composed := C.ComposeFields(signals).value.fields;
    L.ComposedFieldsAreDisjoint(signals);
    forall i, j | 0 <= i < j < |fields|
      ensures !Overlap(fields[i], fields[j]) && IdOf(fields[i]) < IdOf(fields[j])
    {
      assert L.FieldsApart(composed[i], composed[j]);
      assert L.FieldId(composed[i]) < L.FieldId(composed[j]);
      ImportedBits(composed[i]);
      ImportedBits(composed[j]);
    }
    L.SortOfAscending(fields, IdOf);
    DisjointStays(fields);
    forall aliases | Aliased(aliases, fields)
      ensures forall i :: 0 <= i < |fields| ==> MapsTo(aliases, fields[i].id, fields[i].id)
    {
      IdentityAliases(fields, aliases);
    }
  }
}
