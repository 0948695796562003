/** A publication that nothing stands in the way of succeeds, whatever else was done to the root before. */
module ArtifactsProgress {
  import opened Artifacts

  // ---------------------------------------------------------------- one writer goes on

  lemma GoesOn(states: seq<State>, w: nat, c: Choice, next: State) returns (longer: seq<State>)
    requires Run(states) && Step(states[|states| - 1], w, c, next)
    ensures Run(longer) && longer[0] == states[0] && longer[|longer| - 1] == next
  {
    longer := states + [next];
    assert Steps(states[|states| - 1], next);
    forall i | 0 <= i < |longer| - 1
      ensures StepAt(longer, i)
    {
      if i < |states| - 1 {
        assert StepAt(states, i);
      }
    }
  }

  const GO := Choice(false, false, false, "", [])

  /** The state with writer `w` at `position` over these sets, this index and these pointers. */
  function At(s: State, w: nat, position: Position, sets: map<Name, Entry>, index: IndexFile, pointers: map<nat, IndexFile>): State
    requires w < |s.writers|
  {
    s.(writers := s.writers[w := s.writers[w].(position := position)], sets := sets, index := index, pointers := pointers)
  }

  /** The files written so far, with the bytes they should have. */
  function FilesOf(outputs: Outputs, done: set<string>): map<string, FileEntry> {
    map name | name in outputs && name in done :: Regular(outputs[name])
  }

  lemma OneMoreFile(outputs: Outputs, done: set<string>, name: string)
    requires name in outputs
    ensures FilesOf(outputs, done + {name}) == FilesOf(outputs, done)[name := Regular(outputs[name])]
  {
  }

  /** Every file name is a plain basename. */
  predicate PlainNames(outputs: Outputs) {
    forall name :: name in outputs ==> name != "" && name != "." && name != ".." && '/' !in name
  }

  lemma FilesAreWritten(states: seq<State>, s: State, w: nat, base: map<Name, Entry>, done: set<string>) returns (longer: seq<State>)
    requires Run(states) && w < |s.writers| && PlainNames(s.writers[w].outputs) && done <= s.writers[w].outputs.Keys
    requires var o := s.writers[w].outputs;
             states[|states| - 1] == At(s, w, Writing(done), base[Staging(w) := Directory(FilesOf(o, done))], s.index, s.pointers)
    ensures var o := s.writers[w].outputs;
            && Run(longer) && longer[0] == states[0]
            && longer[|longer| - 1] ==
               At(s, w, Writing(o.Keys), base[Staging(w) := Directory(FilesOf(o, o.Keys))], s.index, s.pointers)
    decreases s.writers[w].outputs.Keys - done
  {
    var o := s.writers[w].outputs;
    if done == o.Keys {
      longer := states;
    } else {
      var name :| name in o && name !in done;
      var now := states[|states| - 1];
      var sets := base[Staging(w) := Directory(FilesOf(o, done + {name}))];
      OneMoreFile(o, done, name);
      assert sets == now.sets[Staging(w) := Directory(FilesAt(now.sets, Staging(w))[name := Regular(o[name])])];
      var next := At(s, w, Writing(done + {name}), sets, s.index, s.pointers);
      longer := GoesOn(states, w, GO.(name := name, bytes := o[name]), next);
      longer := FilesAreWritten(longer, s, w, base, done + {name});
    }
  }

  lemma FilesMatch(outputs: Outputs)
    ensures Matches(Directory(FilesOf(outputs, outputs.Keys)), outputs)
  {
    assert FilesOf(outputs, outputs.Keys).Keys == outputs.Keys;
  }

  /** From the check of the destination to a verified staging directory. */
  lemma SetIsStaged(states: seq<State>, s: State, w: nat) returns (longer: seq<State>, sets: map<Name, Entry>)
    requires Run(states) && w < |s.writers| && s == states[|states| - 1] && s.writers[w].position == Prepared
    requires PlainNames(s.writers[w].outputs)
    requires var destination := Generation(Digest(s.writers[w].outputs));
             destination in s.sets ==> Matches(s.sets[destination], s.writers[w].outputs)
    ensures Run(longer) && longer[0] == states[0] && longer[|longer| - 1] == At(s, w, Verified, sets, s.index, s.pointers)
    ensures sets == s.sets[Staging(w) := Directory(FilesOf(s.writers[w].outputs, s.writers[w].outputs.Keys))]
  {
    var o := s.writers[w].outputs;
    var empty := s.sets[Staging(w) := Directory(map[])];
    sets := s.sets[Staging(w) := Directory(FilesOf(o, o.Keys))];
    assert FilesOf(o, {}) == map[];
    FilesMatch(o);
    longer := GoesOn(states, w, GO, At(s, w, DestinationClear, s.sets, s.index, s.pointers));
    longer := GoesOn(longer, w, GO, At(s, w, Writing({}), empty, s.index, s.pointers));
    longer := FilesAreWritten(longer, s, w, s.sets, {});
    longer := GoesOn(longer, w, GO, At(s, w, Verified, sets, s.index, s.pointers));
  }

  /** The staged set is renamed into place, or the same set is already there. */
  lemma SetIsPlaced(states: seq<State>, s: State, w: nat) returns (longer: seq<State>, sets: map<Name, Entry>)
    requires Run(states) && w < |s.writers| && s == states[|states| - 1] && s.writers[w].position == Verified
    requires MatchesAt(s.sets, Staging(w), s.writers[w].outputs)
    requires var destination := Generation(Digest(s.writers[w].outputs));
             destination in s.sets ==> Matches(s.sets[destination], s.writers[w].outputs)
    ensures Run(longer) && longer[0] == states[0] && longer[|longer| - 1] == At(s, w, Placed, sets, s.index, s.pointers)
    ensures Complete(sets, Digest(s.writers[w].outputs))
  {
    var destination := Generation(Digest(s.writers[w].outputs));
    if destination !in s.sets || EmptyDirectory(s.sets[destination]) {
      sets := (s.sets - {Staging(w)})[destination := s.sets[Staging(w)]];
      longer := GoesOn(states, w, GO, At(s, w, Placed, sets, s.index, s.pointers));
    } else {
      sets := s.sets;
      longer := GoesOn(states, w, GO, At(s, w, RenameFailed, s.sets, s.index, s.pointers));
      longer := GoesOn(longer, w, GO, At(s, w, Placed, s.sets, s.index, s.pointers));
    }
  }

  /** The index is replaced and the temporary names are removed. */
  lemma IndexIsReplaced(states: seq<State>, s: State, w: nat) returns (longer: seq<State>)
    requires Run(states) && w < |s.writers| && s == states[|states| - 1] && s.writers[w].position == Placed
    requires Complete(s.sets, Digest(s.writers[w].outputs)) && !s.setsIsSymlink
    ensures Run(longer) && longer[0] == states[0] && Published(longer[|longer| - 1], w, s.writers[w].outputs)
  {
    var digest := Digest(s.writers[w].outputs);
    longer := GoesOn(states, w, GO, At(s, w, PointerReady, s.sets, s.index, s.pointers[w := Names(digest)]));
    var pointers := s.pointers[w := Names(digest)] - {w};
    longer := GoesOn(longer, w, GO, At(s, w, Cleaning(false), s.sets, Names(digest), pointers));
    longer := GoesOn(longer, w, GO,
                     At(s, w, Finished(false, true), s.sets - {Staging(w)}, Names(digest), pointers - {w}));
  }

  /** Writer `w` returned, its set is current and whole, and its temporary names are gone. */
  predicate Published(s: State, w: nat, outputs: Outputs) {
    && w < |s.writers| && s.writers[w] == Writer(outputs, Finished(false, true))
    && Check(s, outputs) && Staging(w) !in s.sets && w !in s.pointers
  }

  /**
    In every reachable state, a writer that has not begun can still publish,
    with all its files, unless `sets` is a symbolic link, a file name is not
    plain, or its generation exists with other contents.
   */
  lemma PublishStaysPossible(states: seq<State>, w: nat) returns (longer: seq<State>)
    requires Run(states) && w < |states[0].writers| && w < |states[|states| - 1].writers|
    requires var s := states[|states| - 1];
             var destination := Generation(Digest(s.writers[w].outputs));
             && s.writers[w].position == Begin && !s.setsIsSymlink && PlainNames(s.writers[w].outputs)
             && (destination in s.sets ==> Matches(s.sets[destination], s.writers[w].outputs))
    ensures Run(longer) && longer[0] == states[0]
    ensures Published(longer[|longer| - 1], w, states[|states| - 1].writers[w].outputs)
  {
    var n := |states| - 1;
    var s := states[n];
    var o := s.writers[w].outputs;
    ReachableInv(states, n);
    ReachableTemporaries(states, n, n, w);
    if s.index == Names(Digest(o)) {
      longer := GoesOn(states, w, GO, At(s, w, IndexMatched, s.sets, s.index, s.pointers));
      longer := GoesOn(longer, w, GO, At(s, w, Finished(false, true), s.sets, s.index, s.pointers));
    } else {
      var sets;
      longer := GoesOn(states, w, GO, At(s, w, Prepared, s.sets, s.index, s.pointers));
      longer, sets := SetIsStaged(longer, longer[|longer| - 1], w);
      FilesMatch(o);
      longer, sets := SetIsPlaced(longer, longer[|longer| - 1], w);
      longer := IndexIsReplaced(longer, longer[|longer| - 1], w);
    }
  }

  // ---------------------------------------------------------------- refusals

  /** A link in place of `sets`, and a generation with other contents, are refused before anything is written. */
  lemma RefusedAtOnce(s: State, w: nat, c: Choice, post: State)
    requires w < |s.writers| && Step(s, w, c, post) && !c.crash
    requires (s.writers[w].position == Begin && s.setsIsSymlink) ||
             (s.writers[w].position == Prepared && Generation(Digest(s.writers[w].outputs)) in s.sets &&
              !Matches(s.sets[Generation(Digest(s.writers[w].outputs))], s.writers[w].outputs))
    ensures post == s.(writers := s.writers[w := s.writers[w].(position := Finished(true, true))])
  {
  }

  /** A file name that is not plain is never written: `publish` raises and goes to its cleanup. */
  lemma BadNamesAreNotWritten(s: State, w: nat, c: Choice, post: State)
    requires w < |s.writers| && Step(s, w, c, post) && !c.crash && s.writers[w].position.Writing?
    requires s.writers[w].position.done != s.writers[w].outputs.Keys
    requires c.name == "" || c.name == "." || c.name == ".." || '/' in c.name
    ensures post == s.(writers := s.writers[w := s.writers[w].(position := Cleaning(true))])
  {
  }

  /** A generation directory that holds anything, whole or not, is never changed or replaced. */
  lemma NonEmptyGenerationsStay(s: State, w: nat, c: Choice, post: State, digest: Digest)
    requires w < |s.writers| && Step(s, w, c, post) && Generation(digest) in s.sets
    requires s.sets[Generation(digest)].NotADirectory? || s.sets[Generation(digest)].files != map[]
    ensures Generation(digest) in post.sets && post.sets[Generation(digest)] == s.sets[Generation(digest)]
  {
    StepTouchesOwn(s, w, c, post);
    if digest == Digest(s.writers[w].outputs) && !c.crash {
      if Stages(s, w, c, post) {
        StagingTouchesOwn(s, w, c, post);
      } else if !Places(s, w, c, post) {
        FinishingTouchesOwn(s, w, c, post);
      }
    }
    assert SameAt(s.sets, post.sets, Generation(digest));
  }
}
