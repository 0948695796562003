/**
  Publication of an artifact set: every writer stages a complete directory,
  verifies it byte by byte, renames it to its digest and only then replaces the
  index. Any number of writers interleave, every file operation may fail and any
  writer may crash between two operations.

  The digest of a set is modelled as the set itself, that is, as an injective
  hash; the index bytes name exactly one digest.
 */
module Artifacts {
  type Bytes = seq<int>
  type Outputs = map<string, Bytes>

  datatype Digest = Digest(outputs: Outputs)

  datatype FileEntry = Regular(bytes: Bytes) | FileSymlink

  datatype Entry = Directory(files: map<string, FileEntry>) | NotADirectory

  /** Entries of `sets`: a generation under its digest, or the temporary directory of one writer. */
  datatype Name = Generation(digest: Digest) | Staging(writer: nat)

  datatype IndexFile = Missing | Garbage | Names(digest: Digest)

  /**
    Where one writer is inside `publish`. `Cleaning` is the `finally` block, with
    or without an exception on its way; `Finished` says whether `publish` raised
    and whether its temporary names are gone.
   */
  datatype Position =
    | Begin
    | IndexMatched
    | Prepared
    | DestinationClear
    | Writing(done: set<string>)
    | Verified
    | RenameFailed
    | Placed
    | PointerReady
    | Cleaning(raising: bool)
    | Finished(raised: bool, clean: bool)
    | Crashed

  datatype Writer = Writer(outputs: Outputs, position: Position)

  datatype State = State(
    setsIsSymlink: bool, sets: map<Name, Entry>, index: IndexFile, pointers: map<nat, IndexFile>, writers: seq<Writer>)

  // ---------------------------------------------------------------- reading

  predicate Matches(entry: Entry, outputs: Outputs) {
    && entry.Directory?
    && entry.files.Keys == outputs.Keys
    && forall name :: name in outputs ==> entry.files[name] == Regular(outputs[name])
  }

  predicate MatchesAt(sets: map<Name, Entry>, name: Name, outputs: Outputs) {
    name in sets && Matches(sets[name], outputs)
  }

  /** The generation a digest names is there, whole. */
  predicate Complete(sets: map<Name, Entry>, digest: Digest) {
    MatchesAt(sets, Generation(digest), digest.outputs)
  }

  /** The non-mutating check: the index names this set and its directory holds exactly its bytes. */
  predicate Check(s: State, outputs: Outputs) {
    && !s.setsIsSymlink
    && s.index == Names(Digest(outputs))
    && MatchesAt(s.sets, Generation(Digest(outputs)), outputs)
  }

  predicate PlainName(name: string) {
    name != "" && name != "." && name != ".." && '/' !in name
  }

  // ---------------------------------------------------------------- the steps of one writer

  /** The choices of the environment at one step. */
  datatype Choice = Choice(crash: bool, fail: bool, unlinkFails: bool, name: string, bytes: Bytes)

  /** The writer moves on and the file system is as given. */
  predicate Moves(s: State, w: nat, position: Position, sets: map<Name, Entry>, post: State) {
    w < |s.writers| &&
    post == s.(writers := s.writers[w := s.writers[w].(position := position)], sets := sets)
  }

  predicate EmptyDirectory(entry: Entry) {
    entry.Directory? && entry.files == map[]
  }

  /** The operations before the staging directory is complete; `fail` makes the operation raise. */
  predicate Stages(s: State, w: nat, c: Choice, post: State) {
    w < |s.writers| &&
    var outputs := s.writers[w].outputs;
    var destination, staging := Generation(Digest(outputs)), Staging(w);
    match s.writers[w].position
    case Begin =>
      Moves(s, w,
            if s.setsIsSymlink then Finished(true, true)
            else if s.index == Names(Digest(outputs)) && !c.fail then IndexMatched
            else Prepared, s.sets, post)
    case IndexMatched =>
      Moves(s, w, if MatchesAt(s.sets, destination, outputs) && !c.fail then Finished(false, true) else Prepared, s.sets, post)
    case Prepared =>
      Moves(s, w,
            if c.fail || (destination in s.sets && !Matches(s.sets[destination], outputs)) then Finished(true, true)
            else DestinationClear, s.sets, post)
    case DestinationClear =>
      if c.fail then Moves(s, w, Finished(true, true), s.sets, post)
      else Moves(s, w, Writing({}), s.sets[staging := Directory(map[])], post)
    case Writing(done) =>
      if done == outputs.Keys then
        Moves(s, w, if !c.fail && MatchesAt(s.sets, staging, outputs) then Verified else Cleaning(true), s.sets, post)
      else if c.name in outputs && c.name !in done && PlainName(c.name) then
        // A write stores any bytes, and may raise after storing them.
        Moves(s, w, if c.fail then Cleaning(true) else Writing(done + {c.name}),
              s.sets[staging := Directory(FilesAt(s.sets, staging)[c.name := Regular(c.bytes)])], post)
      else Moves(s, w, Cleaning(true), s.sets, post)
    case _ => false
  }

  function FilesAt(sets: map<Name, Entry>, name: Name): map<string, FileEntry> {
    if name in sets && sets[name].Directory? then sets[name].files else map[]
  }

  /** The rename into place; a failed rename is accepted when another writer placed the same bytes. */
  predicate Places(s: State, w: nat, c: Choice, post: State) {
    w < |s.writers| &&
    var outputs := s.writers[w].outputs;
    var destination, staging := Generation(Digest(outputs)), Staging(w);
    match s.writers[w].position
    case Verified =>
      if !c.fail && staging in s.sets && (destination !in s.sets || EmptyDirectory(s.sets[destination])) then
        Moves(s, w, Placed, (s.sets - {staging})[destination := s.sets[staging]], post)
      else Moves(s, w, RenameFailed, s.sets, post)
    case RenameFailed =>
      Moves(s, w, if !c.fail && MatchesAt(s.sets, destination, outputs) then Placed else Cleaning(true), s.sets, post)
    case _ => false
  }

  /** The index pointer, its atomic replacement of the index, and the cleanup. */
  predicate Finishes(s: State, w: nat, c: Choice, post: State) {
    w < |s.writers| &&
    var digest := Digest(s.writers[w].outputs);
    match s.writers[w].position
    case Placed =>
      if c.fail then Moves(s.(pointers := s.pointers[w := Garbage]), w, Cleaning(true), s.sets, post)
      else Moves(s.(pointers := s.pointers[w := Names(digest)]), w, PointerReady, s.sets, post)
    case PointerReady =>
      if c.fail || w !in s.pointers then Moves(s, w, Cleaning(true), s.sets, post)
      else Moves(s.(index := s.pointers[w], pointers := s.pointers - {w}), w, Cleaning(false), s.sets, post)
    case Cleaning(raising) =>
      // Removing the directory ignores errors; removing the pointer may raise, even once it was renamed away.
      Moves(s.(pointers := if c.unlinkFails then s.pointers else s.pointers - {w}), w,
            Finished(raising || c.unlinkFails, !c.fail && !c.unlinkFails), if c.fail then s.sets else s.sets - {Staging(w)}, post)
    case _ => false
  }

  predicate Step(s: State, w: nat, c: Choice, post: State) {
    && w < |s.writers|
    && if c.crash then Moves(s, w, if s.writers[w].position.Finished? then s.writers[w].position else Crashed, s.sets, post)
       else Stages(s, w, c, post) || Places(s, w, c, post) || Finishes(s, w, c, post)
  }

  ghost predicate Steps(s: State, post: State) {
    exists w, c :: Step(s, w, c, post)
  }

  ghost predicate StepAt(states: seq<State>, i: nat) {
    i + 1 < |states| &&
    Steps(states[i], states[i + 1])
  }

  /** The index either names nothing or a whole generation; older generations may be anything. */
  predicate IndexSound(s: State) {
    s.index.Names? ==> Complete(s.sets, s.index.digest)
  }

  predicate Init(s: State) {
    IndexSound(s) && s.pointers == map[] && forall w :: 0 <= w < |s.writers| ==> Fresh(s, w)
  }

  /** The writer has not begun, and its temporary directory will have an unused name. */
  predicate Fresh(s: State, w: nat) {
    w < |s.writers| && s.writers[w].position == Begin && Staging(w) !in s.sets
  }

  ghost predicate Run(states: seq<State>) {
    states != [] && Init(states[0]) && forall i :: 0 <= i < |states| - 1 ==> StepAt(states, i)
  }

  // ---------------------------------------------------------------- the invariant

  predicate WriterInv(s: State, w: nat) {
    w < |s.writers| &&
    var writer := s.writers[w];
    && (writer.position.Verified? ==> MatchesAt(s.sets, Staging(w), writer.outputs))
    && (writer.position.Placed? || writer.position.PointerReady? ==> Complete(s.sets, Digest(writer.outputs)))
    && (writer.position.PointerReady? ==> w in s.pointers && s.pointers[w] == Names(Digest(writer.outputs)))
  }

  predicate Inv(s: State) {
    IndexSound(s) && forall w :: 0 <= w < |s.writers| ==> WriterInv(s, w)
  }

  /** Only the writer's own staging directory, destination and pointer change, and only its own position. */
  ghost predicate TouchesOwn(s: State, w: nat, post: State) {
    && w < |s.writers|
    && |post.writers| == |s.writers| && post.setsIsSymlink == s.setsIsSymlink
    && (forall v :: 0 <= v < |s.writers| && v != w ==> post.writers[v] == s.writers[v])
    && post.writers[w].outputs == s.writers[w].outputs
    && (forall name :: name != Staging(w) && name != Generation(Digest(s.writers[w].outputs)) ==>
          SameAt(s.sets, post.sets, name))
    && (forall v :: v != w ==> SamePointer(s.pointers, post.pointers, v))
  }

  predicate SameAt(before: map<Name, Entry>, after: map<Name, Entry>, name: Name) {
    (name in before <==> name in after) && (name in before ==> after[name] == before[name])
  }

  predicate SamePointer(before: map<nat, IndexFile>, after: map<nat, IndexFile>, v: nat) {
    (v in before <==> v in after) && (v in before ==> after[v] == before[v])
  }

  lemma StagingTouchesOwn(s: State, w: nat, c: Choice, post: State)
    requires w < |s.writers| && Stages(s, w, c, post)
    ensures TouchesOwn(s, w, post) && post.index == s.index && post.pointers == s.pointers
    ensures SameAt(s.sets, post.sets, Generation(Digest(s.writers[w].outputs)))
  {
    if s.writers[w].position.Writing? {
      WritingTouchesOwn(s, w, c, post);
    }
  }

  lemma WritingTouchesOwn(s: State, w: nat, c: Choice, post: State)
    requires Stages(s, w, c, post) && s.writers[w].position.Writing?
    ensures TouchesOwn(s, w, post) && post.index == s.index && post.pointers == s.pointers
    ensures SameAt(s.sets, post.sets, Generation(Digest(s.writers[w].outputs)))
  {
  }

  lemma PlacingTouchesOwn(s: State, w: nat, c: Choice, post: State)
    requires w < |s.writers| && Places(s, w, c, post)
    ensures TouchesOwn(s, w, post) && post.index == s.index && post.pointers == s.pointers
  {
  }

  lemma FinishingTouchesOwn(s: State, w: nat, c: Choice, post: State)
    requires w < |s.writers| && Finishes(s, w, c, post)
    ensures TouchesOwn(s, w, post)
    ensures SameAt(s.sets, post.sets, Generation(Digest(s.writers[w].outputs)))
  {
    if s.writers[w].position.Cleaning? {
      CleaningTouchesOwn(s, w, c, post);
    }
  }

  lemma CleaningTouchesOwn(s: State, w: nat, c: Choice, post: State)
    requires Finishes(s, w, c, post) && s.writers[w].position.Cleaning?
    ensures TouchesOwn(s, w, post)
    ensures SameAt(s.sets, post.sets, Generation(Digest(s.writers[w].outputs)))
  {
  }

  lemma StepTouchesOwn(s: State, w: nat, c: Choice, post: State)
    requires Step(s, w, c, post)
    ensures TouchesOwn(s, w, post)
  {
    if !c.crash {
      if Stages(s, w, c, post) {
        StagingTouchesOwn(s, w, c, post);
      } else if Places(s, w, c, post) {
        PlacingTouchesOwn(s, w, c, post);
      } else {
        FinishingTouchesOwn(s, w, c, post);
      }
    }
  }

  /** A whole generation is never changed, whoever writes and however it ends. */
  lemma GenerationsAreKept(s: State, w: nat, c: Choice, post: State, digest: Digest)
    requires Step(s, w, c, post) && WriterInv(s, w) && Complete(s.sets, digest)
    ensures Complete(post.sets, digest) && post.sets[Generation(digest)] == s.sets[Generation(digest)]
  {
    StepTouchesOwn(s, w, c, post);
    if digest != Digest(s.writers[w].outputs) {
      assert SameAt(s.sets, post.sets, Generation(digest));
    } else if !c.crash {
      if Stages(s, w, c, post) {
        StagingTouchesOwn(s, w, c, post);
      } else if Places(s, w, c, post) {
        PlacingKeepsDestination(s, w, c, post);
      } else {
        FinishingTouchesOwn(s, w, c, post);
      }
    }
  }

  lemma PlacingKeepsDestination(s: State, w: nat, c: Choice, post: State)
    requires w < |s.writers| && Places(s, w, c, post) && WriterInv(s, w)
    requires Complete(s.sets, Digest(s.writers[w].outputs))
    ensures SameAt(s.sets, post.sets, Generation(Digest(s.writers[w].outputs)))
  {
    if s.writers[w].position.Verified? {
      SameBytesSameDirectory(s.sets[Staging(w)], s.sets[Generation(Digest(s.writers[w].outputs))], s.writers[w].outputs);
    }
  }

  lemma SameBytesSameDirectory(x: Entry, y: Entry, outputs: Outputs)
    requires Matches(x, outputs) && Matches(y, outputs)
    ensures x == y
  {
    assert x.files == y.files;
  }

  /** A rename puts the verified bytes under the digest that names them. */
  lemma PlacingKeepsInv(s: State, w: nat, c: Choice, post: State)
    requires w < |s.writers| && Places(s, w, c, post) && WriterInv(s, w)
    ensures WriterInv(post, w)
  {
  }

  lemma StagingKeepsInv(s: State, w: nat, c: Choice, post: State)
    requires w < |s.writers| && Stages(s, w, c, post)
    ensures WriterInv(post, w)
  {
  }

  lemma FinishingKeepsInv(s: State, w: nat, c: Choice, post: State)
    requires w < |s.writers| && Finishes(s, w, c, post) && WriterInv(s, w)
    ensures WriterInv(post, w)
    ensures post.index == s.index ||
            (s.writers[w].position.PointerReady? && post.writers[w].position == Cleaning(false) &&
             post.index == Names(Digest(s.writers[w].outputs)))
  {
  }

  lemma OwnStepKeepsInv(s: State, w: nat, c: Choice, post: State)
    requires Step(s, w, c, post) && WriterInv(s, w)
    ensures |post.writers| == |s.writers| && WriterInv(post, w)
    ensures post.index == s.index ||
            (s.writers[w].position.PointerReady? && post.writers[w].position == Cleaning(false) &&
             post.index == Names(Digest(s.writers[w].outputs)))
  {
    StepTouchesOwn(s, w, c, post);
    if !c.crash {
      if Stages(s, w, c, post) {
        StagingKeepsInv(s, w, c, post);
        StagingTouchesOwn(s, w, c, post);
      } else if Places(s, w, c, post) {
        PlacingKeepsInv(s, w, c, post);
        PlacingTouchesOwn(s, w, c, post);
      } else {
        FinishingKeepsInv(s, w, c, post);
      }
    }
  }

  lemma IndexStaysSound(s: State, w: nat, c: Choice, post: State)
    requires Step(s, w, c, post) && WriterInv(s, w) && IndexSound(s)
    ensures IndexSound(post)
  {
    OwnStepKeepsInv(s, w, c, post);
    if post.index.Names? {
      GenerationsAreKept(s, w, c, post, post.index.digest);
    }
  }

  lemma OtherWriterKeepsInv(s: State, w: nat, c: Choice, post: State, v: nat)
    requires Step(s, w, c, post) && WriterInv(s, w) && v < |s.writers| && v != w && WriterInv(s, v)
    ensures |post.writers| == |s.writers| && WriterInv(post, v)
  {
    StepTouchesOwn(s, w, c, post);
    assert SameAt(s.sets, post.sets, Staging(v));
    assert SamePointer(s.pointers, post.pointers, v);
    if Complete(s.sets, Digest(s.writers[v].outputs)) {
      GenerationsAreKept(s, w, c, post, Digest(s.writers[v].outputs));
    }
  }

  lemma StepKeepsInv(s: State, w: nat, c: Choice, post: State)
    requires Step(s, w, c, post) && Inv(s)
    ensures Inv(post)
  {
    assert WriterInv(s, w);
    OwnStepKeepsInv(s, w, c, post);
    IndexStaysSound(s, w, c, post);
    forall v | 0 <= v < |post.writers|
      ensures WriterInv(post, v)
    {
      assert WriterInv(s, v);
      if v != w {
        OtherWriterKeepsInv(s, w, c, post, v);
      }
    }
  }

  lemma {:induction false} ReachableInv(states: seq<State>, n: nat)
    requires Run(states) && n < |states|
    ensures Inv(states[n])
  {
    if n > 0 {
      ReachableInv(states, n - 1);
      assert StepAt(states, n - 1);
      var w, c :| Step(states[n - 1], w, c, states[n]);
      StepKeepsInv(states[n - 1], w, c, states[n]);
    } else {
      forall w | 0 <= w < |states[0].writers|
        ensures WriterInv(states[0], w)
      {
        assert Fresh(states[0], w);
      }
    }
  }

  // ---------------------------------------------------------------- the theorems

  /** In every state, after any crash and under any interleaving, the index names a whole generation. */
  lemma IndexAlwaysNamesAWholeSet(states: seq<State>, n: nat)
    requires Run(states) && n < |states| && states[n].index.Names?
    ensures Complete(states[n].sets, states[n].index.digest)
  {
    ReachableInv(states, n);
  }

  /** A generation that was whole once is the same directory in every later state. */
  lemma {:induction false} GenerationsAreImmutable(states: seq<State>, i: nat, j: nat, digest: Digest)
    requires Run(states) && i <= j < |states| && Complete(states[i].sets, digest)
    ensures Complete(states[j].sets, digest)
    ensures states[j].sets[Generation(digest)] == states[i].sets[Generation(digest)]
  {
    if i < j {
      GenerationsAreImmutable(states, i, j - 1, digest);
      ReachableInv(states, j - 1);
      assert StepAt(states, j - 1);
      var w, c :| Step(states[j - 1], w, c, states[j]);
      assert WriterInv(states[j - 1], w);
      GenerationsAreKept(states[j - 1], w, c, states[j], digest);
    }
  }

  /** The index only ever moves to the digest of the writer that replaces it, whose whole set is then current. */
  lemma IndexMovesOnlyByReplacing(s: State, w: nat, c: Choice, post: State)
    requires Inv(s) && Step(s, w, c, post) && post.index != s.index
    ensures s.writers[w].position.PointerReady? && |post.writers| == |s.writers|
    ensures post.writers[w].position == Cleaning(false) && Check(post, s.writers[w].outputs) == !s.setsIsSymlink
  {
    assert WriterInv(s, w);
    StepTouchesOwn(s, w, c, post);
    OwnStepKeepsInv(s, w, c, post);
    GenerationsAreKept(s, w, c, post, Digest(s.writers[w].outputs));
  }

  // ---------------------------------------------------------------- what an ended publish did to the index

  /** Step `i` is the writer's own replacement of the index. */
  predicate ReplacedAt(states: seq<State>, i: nat, w: nat) {
    i + 1 < |states| && w < |states[i].writers| && w < |states[i + 1].writers| &&
    states[i].writers[w].position.PointerReady? && states[i + 1].writers[w].position == Cleaning(false)
  }

  predicate Replaced(states: seq<State>, n: nat, w: nat) {
    exists i :: 0 <= i < n && ReplacedAt(states, i, w)
  }

  /** Step `i` raised out of the cleanup of a publish that was about to return. */
  predicate RaisedLateAt(states: seq<State>, i: nat, w: nat) {
    i + 1 < |states| && w < |states[i].writers| && w < |states[i + 1].writers| &&
    states[i].writers[w].position == Cleaning(false) &&
    states[i + 1].writers[w].position.Finished? && states[i + 1].writers[w].position.raised
  }

  predicate RaisedLate(states: seq<State>, n: nat, w: nat) {
    exists i :: 0 <= i < n && RaisedLateAt(states, i, w)
  }

  /** At some moment up to `n` the index named the writer's set. */
  predicate WasCurrent(states: seq<State>, n: nat, w: nat) {
    exists i :: 0 <= i <= n < |states| && CurrentAt(states, i, w)
  }

  predicate CurrentAt(states: seq<State>, i: nat, w: nat) {
    i < |states| && w < |states[i].writers| && states[i].index == Names(Digest(states[i].writers[w].outputs))
  }

  /** Where a position can lead in one step. */
  predicate Leads(p: Position, q: Position) {
    match p
    case Cleaning(raising) => q == p || q.Crashed? || (q.Finished? && (raising ==> q.raised))
    case Finished(_, _) => q == p
    case Crashed => q == p
    case IndexMatched => q == p || q.Crashed? || q.Prepared? || q == Finished(false, true)
    case _ => q == p || ((q == Cleaning(false) ==> p.PointerReady?) && (q.Finished? ==> q.raised) && (q.IndexMatched? ==> p.Begin?))
  }

  lemma StepLeads(s: State, v: nat, c: Choice, post: State, w: nat)
    requires Step(s, v, c, post) && w < |s.writers|
    ensures |post.writers| == |s.writers| && post.writers[w].outputs == s.writers[w].outputs
    ensures Leads(s.writers[w].position, post.writers[w].position)
    ensures s.writers[w].position.Begin? && post.writers[w].position.IndexMatched? ==>
              s.index == Names(Digest(s.writers[w].outputs))
  {
    StepTouchesOwn(s, v, c, post);
  }

  /** What the position of a writer tells about its past. */
  predicate PastInv(states: seq<State>, n: nat, w: nat) {
    n < |states| && w < |states[n].writers| &&
    var p := states[n].writers[w].position;
    && (p.Cleaning? && !p.raising ==> Replaced(states, n, w))
    && (p != Cleaning(false) && !p.Finished? && !p.Crashed? ==> !Replaced(states, n, w))
    && (!p.Finished? ==> !RaisedLate(states, n, w))
    && (p.Finished? && p.raised ==> (Replaced(states, n, w) <==> RaisedLate(states, n, w)))
    && (p.IndexMatched? || p == Cleaning(false) || (p.Finished? && !p.raised) ==> WasCurrent(states, n, w))
  }

  lemma PastGrows(states: seq<State>, n: nat, w: nat)
    requires n + 1 < |states|
    ensures Replaced(states, n + 1, w) <==> Replaced(states, n, w) || ReplacedAt(states, n, w)
    ensures RaisedLate(states, n + 1, w) <==> RaisedLate(states, n, w) || RaisedLateAt(states, n, w)
    ensures WasCurrent(states, n + 1, w) <==> WasCurrent(states, n, w) || CurrentAt(states, n + 1, w)
  {
    if Replaced(states, n + 1, w) && !ReplacedAt(states, n, w) {
      var i :| 0 <= i < n + 1 && ReplacedAt(states, i, w);
      assert i < n;
    }
    if RaisedLate(states, n + 1, w) && !RaisedLateAt(states, n, w) {
      var i :| 0 <= i < n + 1 && RaisedLateAt(states, i, w);
      assert i < n;
    }
    if WasCurrent(states, n + 1, w) && !CurrentAt(states, n + 1, w) {
      var i :| 0 <= i <= n + 1 && CurrentAt(states, i, w);
      assert i <= n;
    }
  }

  lemma {:induction false} ReachablePast(states: seq<State>, n: nat, w: nat)
    requires Run(states) && n < |states| && w < |states[0].writers|
    ensures PastInv(states, n, w)
  {
    if n == 0 {
      assert Fresh(states[0], w);
    } else {
      ReachablePast(states, n - 1, w);
      assert StepAt(states, n - 1);
      var v, c :| Step(states[n - 1], v, c, states[n]);
      StepLeads(states[n - 1], v, c, states[n], w);
      if ReplacedAt(states, n - 1, w) {
        ReplacingMakesCurrent(states, n - 1, w);
      }
      PastStays(states, n - 1, w, states[n - 1].writers[w].position, states[n].writers[w].position);
    }
  }

  lemma PastStays(states: seq<State>, n: nat, w: nat, p: Position, q: Position)
    requires PastInv(states, n, w) && n + 1 < |states| && w < |states[n + 1].writers|
    requires p == states[n].writers[w].position && q == states[n + 1].writers[w].position && Leads(p, q)
    requires ReplacedAt(states, n, w) ==> CurrentAt(states, n + 1, w)
    requires p.Begin? && q.IndexMatched? ==> CurrentAt(states, n, w)
    ensures PastInv(states, n + 1, w)
  {
    PastGrows(states, n, w);
    assert CurrentAt(states, n, w) ==> WasCurrent(states, n, w);
  }

  lemma ReplacingMakesCurrent(states: seq<State>, i: nat, w: nat)
    requires Run(states) && ReplacedAt(states, i, w)
    ensures CurrentAt(states, i + 1, w)
  {
    ReachableInv(states, i);
    assert StepAt(states, i);
    var v, c :| Step(states[i], v, c, states[i + 1]);
    assert WriterInv(states[i], w);
    StepTouchesOwn(states[i], v, c, states[i + 1]);
    assert v == w;
  }

  /** If the step from `s` to `post` is the writer's, it does not write the index. */
  ghost predicate LeavesIndex(s: State, post: State, w: nat) {
    forall c :: Step(s, w, c, post) ==> post.index == s.index
  }

  ghost predicate LeavesIndexAt(states: seq<State>, i: nat, w: nat) {
    i + 1 < |states| && LeavesIndex(states[i], states[i + 1], w)
  }

  lemma NoReplacementLeavesIndex(states: seq<State>, i: nat, w: nat)
    requires Run(states) && i + 1 < |states| && w < |states[0].writers| && !ReplacedAt(states, i, w)
    ensures LeavesIndexAt(states, i, w)
  {
    ReachableInv(states, i);
    var s, post := states[i], states[i + 1];
    forall c | Step(s, w, c, post)
      ensures post.index == s.index
    {
      assert WriterInv(s, w);
      OwnStepKeepsInv(s, w, c, post);
    }
  }

  /**
    A publish that raised has left the index as it was exactly when the
    operation that raised was not the unlinking of its already renamed pointer:
    after its own replacement of the index nothing else can raise.
   */
  lemma FailureLeavesTheIndex(states: seq<State>, j: nat, w: nat)
    requires Run(states) && j < |states| && w < |states[0].writers| && w < |states[j].writers|
    requires states[j].writers[w].position.Finished? && states[j].writers[w].position.raised
    ensures !Replaced(states, j, w) <==> !RaisedLate(states, j, w)
    ensures !RaisedLate(states, j, w) ==>
              forall i :: 0 <= i < j ==> LeavesIndexAt(states, i, w)
    ensures RaisedLate(states, j, w) ==> WasCurrent(states, j, w)
  {
    ReachablePast(states, j, w);
    if RaisedLate(states, j, w) {
      var i :| 0 <= i < j && ReplacedAt(states, i, w);
      ReplacingMakesCurrent(states, i, w);
    } else {
      forall i | 0 <= i < j
        ensures LeavesIndexAt(states, i, w)
      {
        assert !ReplacedAt(states, i, w);
        NoReplacementLeavesIndex(states, i, w);
      }
    }
  }

  /** A publish that returned has had its whole set named by the index at some moment. */
  lemma ReturnMeansPublished(states: seq<State>, j: nat, w: nat) returns (i: nat)
    requires Run(states) && j < |states| && w < |states[0].writers| && w < |states[j].writers|
    requires states[j].writers[w].position.Finished? && !states[j].writers[w].position.raised
    ensures i <= j && CurrentAt(states, i, w) && Complete(states[i].sets, Digest(states[i].writers[w].outputs))
  {
    ReachablePast(states, j, w);
    i :| 0 <= i <= j && CurrentAt(states, i, w);
    ReachableInv(states, i);
  }

  // ---------------------------------------------------------------- two runs

  lemma Extend(states: seq<State>, c: Choice, next: State) returns (longer: seq<State>)
    requires Run(states) && Step(states[|states| - 1], 0, c, next)
    ensures Run(longer) && longer == states + [next]
  {
    longer := states + [next];
    assert Steps(states[|states| - 1], next);
    forall i | 0 <= i < |longer| - 1
      ensures StepAt(longer, i)
    {
      if i < |states| - 1 {
        assert StepAt(states, i);
      }
    }
  }

  function Alone(outputs: Outputs, position: Position, sets: map<Name, Entry>, index: IndexFile, pointers: map<nat, IndexFile>): State {
    State(false, sets, index, pointers, [Writer(outputs, position)])
  }

  /** A single writer publishes one file into an empty root and replaces the index. */
  lemma ReplacementIsReachable(name: string, bytes: Bytes) returns (states: seq<State>)
    requires PlainName(name)
    ensures Run(states) && |states| >= 2 && ReplacedAt(states, |states| - 2, 0)
    ensures var o := map[name := bytes];
            states[|states| - 1] ==
            Alone(o, Cleaning(false), map[Generation(Digest(o)) := Directory(map[name := Regular(bytes)])], Names(Digest(o)), map[])
  {
    var o := map[name := bytes];
    var go := Choice(false, false, false, name, bytes);
    var staged := Directory(map[name := Regular(bytes)]);
    var placed := map[Generation(Digest(o)) := staged];
    states := [Alone(o, Begin, map[], Missing, map[])];
    states := Extend(states, go, Alone(o, Prepared, map[], Missing, map[]));
    states := Extend(states, go, Alone(o, DestinationClear, map[], Missing, map[]));
    states := Extend(states, go, Alone(o, Writing({}), map[Staging(0) := Directory(map[])], Missing, map[]));
    states := OneFileIsWritten(states, name, bytes, go);
    states := Extend(states, go, Alone(o, Verified, map[Staging(0) := staged], Missing, map[]));
    states := StagedIsPlaced(states, o, staged, go);
    states := Extend(states, go, Alone(o, PointerReady, placed, Missing, map[0 := Names(Digest(o))]));
    states := Extend(states, go, Alone(o, Cleaning(false), placed, Names(Digest(o)), map[]));
  }

  lemma OneFileIsWritten(states: seq<State>, name: string, bytes: Bytes, go: Choice) returns (longer: seq<State>)
    requires PlainName(name) && go == Choice(false, false, false, name, bytes) && Run(states)
    requires states[|states| - 1] ==
             Alone(map[name := bytes], Writing({}), map[Staging(0) := Directory(map[])], Missing, map[])
    ensures Run(longer)
    ensures longer[|longer| - 1] ==
            Alone(map[name := bytes], Writing({name}), map[Staging(0) := Directory(map[name := Regular(bytes)])], Missing, map[])
  {
    var s := states[|states| - 1];
    var next := Alone(map[name := bytes], Writing({name}), map[Staging(0) := Directory(map[name := Regular(bytes)])], Missing, map[]);
    assert {} + {name} == {name};
    assert next.sets == s.sets[Staging(0) := Directory(FilesAt(s.sets, Staging(0))[name := Regular(bytes)])];
    longer := Extend(states, go, next);
  }

  lemma StagedIsPlaced(states: seq<State>, o: Outputs, staged: Entry, go: Choice) returns (longer: seq<State>)
    requires !go.crash && !go.fail && Run(states)
    requires states[|states| - 1] == Alone(o, Verified, map[Staging(0) := staged], Missing, map[])
    ensures Run(longer) && longer[|longer| - 1] == Alone(o, Placed, map[Generation(Digest(o)) := staged], Missing, map[])
  {
    var s := states[|states| - 1];
    var placed := map[Generation(Digest(o)) := staged];
    assert placed == (s.sets - {Staging(0)})[Generation(Digest(o)) := staged];
    longer := Extend(states, go, Alone(o, Placed, placed, Missing, map[]));
  }

  /** A publish can return with its set current and nothing left behind. */
  lemma APublishSucceeds(name: string, bytes: Bytes) returns (states: seq<State>)
    requires PlainName(name)
    ensures Run(states) && var s := states[|states| - 1];
            s.writers == [Writer(map[name := bytes], Finished(false, true))] && Check(s, map[name := bytes])
  {
    var o := map[name := bytes];
    states := ReplacementIsReachable(name, bytes);
    var s := states[|states| - 1];
    assert s.sets - {Staging(0)} == s.sets;
    states := Extend(states, Choice(false, false, false, name, bytes), Alone(o, Finished(false, true), s.sets, s.index, s.pointers));
  }

  /** The failing case: unlinking the renamed pointer raises, so publish raises with its own set current. */
  lemma APublishCanRaiseLate(name: string, bytes: Bytes) returns (states: seq<State>)
    requires PlainName(name)
    ensures Run(states) && RaisedLate(states, |states| - 1, 0) && Replaced(states, |states| - 1, 0)
    ensures Check(states[|states| - 1], map[name := bytes])
    ensures states[|states| - 1].writers == [Writer(map[name := bytes], Finished(true, false))]
  {
    var o := map[name := bytes];
    states := ReplacementIsReachable(name, bytes);
    var n := |states|;
    var s := states[n - 1];
    assert s.sets - {Staging(0)} == s.sets;
    assert ReplacedAt(states, n - 2, 0);
    states := Extend(states, Choice(false, false, true, name, bytes), Alone(o, Finished(true, false), s.sets, s.index, s.pointers));
    assert ReplacedAt(states, n - 2, 0) && RaisedLateAt(states, n - 1, 0);
  }

  // ---------------------------------------------------------------- temporary names

  /** When the temporary names of a writer do not exist. */
  predicate TemporariesInv(s: State, w: nat) {
    w < |s.writers| &&
    var position := s.writers[w].position;
    && (position.Begin? || position.IndexMatched? || position.Prepared? || position.DestinationClear? ==> Staging(w) !in s.sets)
    && (!position.PointerReady? && !position.Cleaning? && !position.Finished? && !position.Crashed? ==> w !in s.pointers)
    && (position.Finished? && position.clean ==> Staging(w) !in s.sets && w !in s.pointers)
  }

  lemma StagingKeepsTemporaries(s: State, w: nat, c: Choice, post: State)
    requires TemporariesInv(s, w) && Stages(s, w, c, post)
    ensures TemporariesInv(post, w)
  {
  }

  lemma OwnStepKeepsTemporaries(s: State, w: nat, c: Choice, post: State)
    requires TemporariesInv(s, w) && Step(s, w, c, post)
    ensures TemporariesInv(post, w) && (s.writers[w].position.Finished? ==> post.writers[w] == s.writers[w])
  {
    if !c.crash && Stages(s, w, c, post) {
      StagingKeepsTemporaries(s, w, c, post);
    }
  }

  lemma StepKeepsTemporaries(s: State, v: nat, c: Choice, post: State, w: nat)
    requires TemporariesInv(s, w) && Step(s, v, c, post)
    ensures TemporariesInv(post, w) && (s.writers[w].position.Finished? ==> post.writers[w] == s.writers[w])
  {
    if v == w {
      OwnStepKeepsTemporaries(s, w, c, post);
    } else {
      StepTouchesOwn(s, v, c, post);
      assert SameAt(s.sets, post.sets, Staging(w)) && SamePointer(s.pointers, post.pointers, w);
    }
  }

  lemma {:induction false} ReachableTemporaries(states: seq<State>, i: nat, n: nat, w: nat)
    requires Run(states) && i <= n < |states| && w < |states[0].writers|
    ensures TemporariesInv(states[i], w) && TemporariesInv(states[n], w)
    ensures states[i].writers[w].position.Finished? ==> states[n].writers[w] == states[i].writers[w]
    decreases n
  {
    if n == 0 {
      assert Fresh(states[0], w);
    } else {
      ReachableTemporaries(states, if i == n then n - 1 else i, n - 1, w);
      assert StepAt(states, n - 1);
      var v, c :| Step(states[n - 1], v, c, states[n]);
      StepKeepsTemporaries(states[n - 1], v, c, states[n], w);
    }
  }

  /**
    Once a writer has finished without a failed cleanup, neither its temporary
    directory nor its temporary index exists in any later state.
   */
  lemma CleanupRemovesTemporaries(states: seq<State>, i: nat, j: nat, w: nat)
    requires Run(states) && i <= j < |states| && w < |states[0].writers| && w < |states[i].writers|
    requires states[i].writers[w].position.Finished? && states[i].writers[w].position.clean
    ensures Staging(w) !in states[j].sets && w !in states[j].pointers
  {
    ReachableTemporaries(states, i, j, w);
  }
}
