/**
 * Publishing DATG indexes by temporary file and hard link: many publishers and readers of one
 * directory, each able to crash between any two file operations.
 */
module DatgPublication {
  import opened Wrappers
  import opened Strings

  const MAX_INDEX_BYTES := 33_554_432

  // An index artifact: its cache key and all the rest of it.
  datatype Index = Index(key: string, body: string)

  // The canonical form, and reading a stored form back.
  datatype Codec = Codec(canonical: Index -> string, parse: string -> Option<Index>)

  ghost predicate Faithful(codec: Codec) { forall a :: codec.parse(codec.canonical(a)) == Some(a) }

  // What a name in the directory leads to.
  datatype Node = File(inode: nat) | Symlink | Folder

  // entries are the published names by cache key; temporaries the inodes that have a temporary name.
  datatype Disk = Disk(files: map<nat, string>, entries: map<string, Node>, temporaries: set<nat>)

  datatype Outcome = Published(size: nat) | Refused(operation: string)

  const BOUNDARY := Refused("datg.index.publication_boundary")
  const SIZE := Refused("datg.index.publication_size")
  const CONFLICT := Refused("datg.index.publication_conflict")
  const INTEGRITY := Refused("datg.index.publication_integrity")
  const IDENTITY := Refused("datg.index.publication_identity")
  const STORAGE := Refused("datg.index.publication")

  // Where a publisher stands, each step being one operation on the directory.
  datatype Phase =
    | Begun
    | Present
    | Missing
    | Writing(inode: nat, written: nat)
    | Flushed(inode: nat)
    | Linked(inode: nat)
    | Closing(temporary: Option<nat>, outcome: Outcome)
    | Done(outcome: Outcome)
    | Crashed

  datatype Publisher = Publisher(index: Index, phase: Phase)

  datatype State = State(disk: Disk, publishers: seq<Publisher>)

  datatype Step =
    | Begin(index: Index)
    | Create(i: nat, inode: nat)
    | Write(i: nat, count: nat)
    | Advance(i: nat)
    | StorageFails(i: nat)
    | Crash(i: nat)

  predicate Fits(payload: string) { 1 <= |payload| <= MAX_INDEX_BYTES }

  // Everything before the first change to the directory.
  function Check(codec: Codec, disk: Disk, a: Index): Phase {
    if !IsHex(a.key, 64) then Closing(None, IDENTITY)
    else if !Fits(codec.canonical(a)) then Closing(None, SIZE)
    else if a.key !in disk.entries then Missing
    else if disk.entries[a.key].Symlink? then Closing(None, BOUNDARY)
    else Present
  }

  // Reading back what is published under the key.
  function Verify(codec: Codec, disk: Disk, a: Index): Outcome {
    if a.key !in disk.entries then INTEGRITY
    else
      match disk.entries[a.key]
      case Symlink => BOUNDARY
      case Folder => BOUNDARY
      case File(inode) =>
        if inode !in disk.files then INTEGRITY
        else if !Fits(disk.files[inode]) then SIZE
        else
          match codec.parse(disk.files[inode])
          case None => INTEGRITY
          case Some(observed) => if observed == a then Published(|codec.canonical(a)|) else CONFLICT
  }

  // A hard link fails on an existing name; the failure is suppressed.
  function Link(disk: Disk, key: string, inode: nat): Disk {
    if key in disk.entries then disk else disk.(entries := disk.entries[key := File(inode)])
  }

  function Unlink(disk: Disk, temporary: Option<nat>): Disk {
    if temporary.Some? then disk.(temporaries := disk.temporaries - {temporary.value}) else disk
  }

  function Holds(phase: Phase): Option<nat> {
    match phase
    case Writing(inode, _) => Some(inode)
    case Flushed(inode) => Some(inode)
    case Linked(inode) => Some(inode)
    case Closing(temporary, _) => temporary
    case _ => None
  }

  // One file operation of a publisher.
  function Operate(codec: Codec, disk: Disk, p: Publisher): (Disk, Phase) {
    match p.phase
    case Begun => (disk, Check(codec, disk, p.index))
    case Present => (disk, Closing(None, Verify(codec, disk, p.index)))
    case Flushed(inode) => (Link(disk, p.index.key, inode), Linked(inode))
    case Linked(inode) => (disk, Closing(Some(inode), Verify(codec, disk, p.index)))
    case Closing(temporary, outcome) => (Unlink(disk, temporary), Done(outcome))
    case _ => (disk, p.phase)
  }

  // Appending part of the payload to the temporary file.
  function WriteSome(codec: Codec, disk: Disk, p: Publisher, count: nat): (Disk, Phase)
    requires p.phase.Writing?
  {
    var payload := codec.canonical(p.index);
    var written := if p.phase.written + count < |payload| then p.phase.written + count else |payload|;
    (disk.(files := disk.files[p.phase.inode := payload[..written]]),
     if written == |payload| then Flushed(p.phase.inode) else Writing(p.phase.inode, written))
  }

  // An operation raising: reported as an integrity failure while verifying.
  function Failing(phase: Phase): Phase {
    match phase
    case Present => Closing(None, INTEGRITY)
    case Linked(inode) => Closing(Some(inode), INTEGRITY)
    case Closing(_, _) => phase
    case Done(_) => phase
    case Crashed => phase
    case _ => Closing(Holds(phase), STORAGE)
  }

  function Update(s: State, i: nat, disk: Disk, phase: Phase): State
    requires i < |s.publishers|
  {
    State(disk, s.publishers[i := s.publishers[i].(phase := phase)])
  }

  // The next state; a step that is not enabled changes nothing.
  function Next(codec: Codec, s: State, step: Step): State {
    match step
    case Begin(index) => s.(publishers := s.publishers + [Publisher(index, Begun)])
    case Create(i, inode) =>
      if i < |s.publishers| && s.publishers[i].phase.Missing? && inode !in s.disk.files
      then Update(s, i, s.disk.(files := s.disk.files[inode := ""], temporaries := s.disk.temporaries + {inode}), Writing(inode, 0))
      else s
    case Write(i, count) =>
      if i < |s.publishers| && s.publishers[i].phase.Writing?
      then var (disk, phase) := WriteSome(codec, s.disk, s.publishers[i], count); Update(s, i, disk, phase)
      else s
    case Advance(i) =>
      if i < |s.publishers| then var (disk, phase) := Operate(codec, s.disk, s.publishers[i]); Update(s, i, disk, phase)
      else s
    case StorageFails(i) => if i < |s.publishers| then Update(s, i, s.disk, Failing(s.publishers[i].phase)) else s
    case Crash(i) => if i < |s.publishers| && !s.publishers[i].phase.Done? then Update(s, i, s.disk, Crashed) else s
  }

  function Run(codec: Codec, s: State, steps: seq<Step>): State
    decreases |steps|
  {
    if steps == [] then s else Run(codec, Next(codec, s, steps[0]), steps[1..])
  }

  // ---------- the invariant ----------

  // The entry of a key is the whole canonical form of an index with that key.
  ghost predicate IsComplete(codec: Codec, disk: Disk, key: string) {
    && key in disk.entries && disk.entries[key].File? && disk.entries[key].inode in disk.files
    && exists a :: IsIndexOf(codec, disk.files[disk.entries[key].inode], key, a)
  }

  predicate IsIndexOf(codec: Codec, content: string, key: string, a: Index) {
    a.key == key && IsHex(key, 64) && content == codec.canonical(a) && Fits(content)
  }

  predicate IsStored(codec: Codec, disk: Disk, a: Index) {
    && a.key in disk.entries && disk.entries[a.key].File? && disk.entries[a.key].inode in disk.files
    && codec.parse(disk.files[disk.entries[a.key].inode]) == Some(a)
  }

  function OutcomeOf(phase: Phase): Option<Outcome> {
    match phase
    case Closing(_, outcome) => Some(outcome)
    case Done(outcome) => Some(outcome)
    case _ => None
  }

  // What a publisher's phase says about the directory.
  predicate IsSound(codec: Codec, disk: Disk, p: Publisher) {
    var payload := codec.canonical(p.index);
    && (p.phase.Missing? || p.phase.Writing? || p.phase.Flushed? || p.phase.Linked? ==> IsHex(p.index.key, 64) && Fits(payload))
    && (Holds(p.phase).Some? ==> Holds(p.phase).value in disk.files)
    && (p.phase.Writing? ==> p.phase.written <= |payload| && disk.files[p.phase.inode] == payload[..p.phase.written])
    && (p.phase.Flushed? ==> disk.files[p.phase.inode] == payload)
    && (OutcomeOf(p.phase).Some? && OutcomeOf(p.phase).value.Published? ==>
          IsStored(codec, disk, p.index) && OutcomeOf(p.phase).value.size == |payload|)
  }

  predicate SoundPublishers(codec: Codec, s: State) {
    forall i :: 0 <= i < |s.publishers| ==> IsSound(codec, s.disk, s.publishers[i])
  }

  // No two publishers hold the same temporary file.
  predicate Exclusive(s: State) {
    forall i, j :: 0 <= i < j < |s.publishers| && Holds(s.publishers[i].phase).Some? ==>
      Holds(s.publishers[i].phase) != Holds(s.publishers[j].phase)
  }

  // A published file exists and nobody is still writing it.
  predicate IsSettled(s: State, key: string)
    requires key in s.disk.entries
  {
    s.disk.entries[key].File? ==>
      && s.disk.entries[key].inode in s.disk.files
      && forall i :: 0 <= i < |s.publishers| && s.publishers[i].phase.Writing? ==> s.publishers[i].phase.inode != s.disk.entries[key].inode
  }

  predicate Settled(s: State) { forall key :: key in s.disk.entries ==> IsSettled(s, key) }

  // The names present at the start are exempt.
  ghost predicate Complete(codec: Codec, disk: Disk, before: set<string>) {
    forall key :: key in disk.entries && key !in before ==> IsComplete(codec, disk, key)
  }

  ghost predicate Inv(codec: Codec, before: set<string>, s: State) {
    SoundPublishers(codec, s) && Exclusive(s) && Settled(s) && Complete(codec, s.disk, before)
  }

  // No published file is replaced or changed.
  predicate KeepsEntries(a: Disk, b: Disk) {
    forall key :: key in a.entries ==> KeepsEntry(a, b, key)
  }

  predicate KeepsEntry(a: Disk, b: Disk, key: string)
    requires key in a.entries
  {
    && key in b.entries && b.entries[key] == a.entries[key]
    && (a.entries[key].File? && a.entries[key].inode in a.files ==>
          a.entries[key].inode in b.files && b.files[a.entries[key].inode] == a.files[a.entries[key].inode])
  }

  predicate KeepsPublisher(p: Publisher, q: Publisher) {
    q.index == p.index && (p.phase.Done? ==> q == p)
  }

  predicate KeepsPublishers(a: seq<Publisher>, b: seq<Publisher>) {
    |a| <= |b| && forall i :: 0 <= i < |a| ==> KeepsPublisher(a[i], b[i])
  }

  predicate Keeps(s: State, t: State) { KeepsEntries(s.disk, t.disk) && KeepsPublishers(s.publishers, t.publishers) }

  // ---------- preservation ----------

  // A publisher's facts survive changes that keep the entries and its own file.
  lemma SoundCarries(codec: Codec, a: Disk, b: Disk, p: Publisher)
    requires IsSound(codec, a, p) && KeepsEntries(a, b)
    requires Holds(p.phase).Some? ==> Holds(p.phase).value in b.files && b.files[Holds(p.phase).value] == a.files[Holds(p.phase).value]
    ensures IsSound(codec, b, p)
  {
    hide IsHex;
    if p.index.key in a.entries {
      assert KeepsEntry(a, b, p.index.key);
    }
  }

  lemma CompleteCarries(codec: Codec, a: Disk, b: Disk, before: set<string>, key: string)
    requires Complete(codec, a, before) && KeepsEntries(a, b) && key in a.entries && key !in before
    ensures IsComplete(codec, b, key)
  {
    hide IsIndexOf;
    assert IsComplete(codec, a, key) && KeepsEntry(a, b, key);
  }

  // Publisher i moves on: what there is to show for the new state.
  lemma Moves(codec: Codec, before: set<string>, s: State, i: nat, disk: Disk, phase: Phase)
    requires Inv(codec, before, s) && i < |s.publishers| && KeepsEntries(s.disk, disk)
    requires !s.publishers[i].phase.Done? || phase == s.publishers[i].phase
    requires IsSound(codec, disk, s.publishers[i].(phase := phase))
    requires forall inode :: inode in s.disk.files && Holds(s.publishers[i].phase) != Some(inode) ==>
               inode in disk.files && disk.files[inode] == s.disk.files[inode]
    requires Holds(phase).Some? && Holds(phase) != Holds(s.publishers[i].phase) ==> Holds(phase).value !in s.disk.files
    requires phase.Writing? ==> s.publishers[i].phase.Writing? || Holds(phase).value !in s.disk.files
    requires phase.Writing? && s.publishers[i].phase.Writing? ==> Holds(phase) == Holds(s.publishers[i].phase)
    requires forall key :: key in disk.entries && key !in s.disk.entries ==>
               IsComplete(codec, disk, key) && Holds(phase) == Some(disk.entries[key].inode) && !phase.Writing?
               && Holds(s.publishers[i].phase) == Holds(phase)
    ensures Inv(codec, before, Update(s, i, disk, phase)) && Keeps(s, Update(s, i, disk, phase))
  {
    var t := Update(s, i, disk, phase);
    MovesOthers(codec, s, i, disk, phase);
    MovesExclusive(codec, s, i, disk, phase);
    forall key | key in disk.entries ensures IsSettled(t, key) {
      MovesSettled(codec, s, i, disk, phase, key);
    }
    hide IsSound, IsSettled, IsComplete;
    forall key | key in disk.entries && key !in before ensures IsComplete(codec, disk, key) {
      if key in s.disk.entries {
        CompleteCarries(codec, s.disk, disk, before, key);
      }
    }
  }

  lemma MovesOthers(codec: Codec, s: State, i: nat, disk: Disk, phase: Phase)
    requires SoundPublishers(codec, s) && Exclusive(s) && i < |s.publishers| && KeepsEntries(s.disk, disk)
    requires IsSound(codec, disk, s.publishers[i].(phase := phase))
    requires forall inode :: inode in s.disk.files && Holds(s.publishers[i].phase) != Some(inode) ==>
               inode in disk.files && disk.files[inode] == s.disk.files[inode]
    ensures SoundPublishers(codec, Update(s, i, disk, phase))
  {
    hide KeepsEntries;
    forall j | 0 <= j < |s.publishers| && j != i ensures IsSound(codec, disk, s.publishers[j]) {
      HeldFileExists(codec, s, j);
      hide IsSound;
      SoundCarries(codec, s.disk, disk, s.publishers[j]);
    }
  }

  lemma HeldFileExists(codec: Codec, s: State, j: nat)
    requires SoundPublishers(codec, s) && j < |s.publishers|
    ensures Holds(s.publishers[j].phase).Some? ==> Holds(s.publishers[j].phase).value in s.disk.files
  {
    assert IsSound(codec, s.disk, s.publishers[j]);
  }

  lemma MovesExclusive(codec: Codec, s: State, i: nat, disk: Disk, phase: Phase)
    requires SoundPublishers(codec, s) && Exclusive(s) && i < |s.publishers|
    requires Holds(phase).Some? && Holds(phase) != Holds(s.publishers[i].phase) ==> Holds(phase).value !in s.disk.files
    ensures Exclusive(Update(s, i, disk, phase))
  {
    forall j | 0 <= j < |s.publishers| ensures Holds(s.publishers[j].phase).Some? ==> Holds(s.publishers[j].phase).value in s.disk.files {
      HeldFileExists(codec, s, j);
    }
    hide IsSound, Holds;
  }

  lemma MovesSettled(codec: Codec, s: State, i: nat, disk: Disk, phase: Phase, key: string)
    requires SoundPublishers(codec, s) && Exclusive(s) && Settled(s) && i < |s.publishers| && KeepsEntries(s.disk, disk)
    requires phase.Writing? ==> s.publishers[i].phase.Writing? || Holds(phase).value !in s.disk.files
    requires phase.Writing? && s.publishers[i].phase.Writing? ==> Holds(phase) == Holds(s.publishers[i].phase)
    requires key in disk.entries
    requires key !in s.disk.entries ==>
               IsComplete(codec, disk, key) && Holds(phase) == Some(disk.entries[key].inode) && !phase.Writing?
               && Holds(s.publishers[i].phase) == Holds(phase)
    ensures IsSettled(Update(s, i, disk, phase), key)
  {
    hide IsSound, IsIndexOf;
    if key in s.disk.entries {
      assert IsSettled(s, key) && KeepsEntry(s.disk, disk, key);
    }
  }

  lemma CreateKeeps(codec: Codec, before: set<string>, s: State, i: nat, inode: nat)
    requires Inv(codec, before, s) && i < |s.publishers| && s.publishers[i].phase.Missing? && inode !in s.disk.files
    ensures var t := Next(codec, s, Create(i, inode)); Inv(codec, before, t) && Keeps(s, t)
  {
    hide IsHex;
    var p := s.publishers[i];
    assert IsSound(codec, s.disk, p);
    var disk := s.disk.(files := s.disk.files[inode := ""], temporaries := s.disk.temporaries + {inode});
    assert forall key :: key in s.disk.entries ==> IsSettled(s, key);
    assert KeepsEntries(s.disk, disk);
    assert IsSound(codec, disk, p.(phase := Writing(inode, 0)));
    hide Inv, IsSound;
    Moves(codec, before, s, i, disk, Writing(inode, 0));
  }

  lemma WriteKeeps(codec: Codec, before: set<string>, s: State, i: nat, count: nat)
    requires Inv(codec, before, s) && i < |s.publishers| && s.publishers[i].phase.Writing?
    ensures var t := Next(codec, s, Write(i, count)); Inv(codec, before, t) && Keeps(s, t)
  {
    hide IsHex;
    var p := s.publishers[i];
    assert IsSound(codec, s.disk, p);
    var payload := codec.canonical(p.index);
    assert payload[..|payload|] == payload;
    var (disk, phase) := WriteSome(codec, s.disk, p, count);
    assert forall key :: key in s.disk.entries ==> IsSettled(s, key);
    assert KeepsEntries(s.disk, disk);
    assert IsSound(codec, disk, p.(phase := phase));
    hide Inv, IsSound;
    Moves(codec, before, s, i, disk, phase);
  }

  lemma LinkKeeps(codec: Codec, before: set<string>, s: State, i: nat)
    requires Inv(codec, before, s) && i < |s.publishers| && s.publishers[i].phase.Flushed?
    ensures var t := Next(codec, s, Advance(i)); Inv(codec, before, t) && Keeps(s, t)
  {
    hide IsHex;
    var p := s.publishers[i];
    assert IsSound(codec, s.disk, p);
    var (disk, phase) := Operate(codec, s.disk, p);
    assert KeepsEntries(s.disk, disk);
    assert IsSound(codec, disk, p.(phase := phase));
    if p.index.key !in s.disk.entries {
      assert IsIndexOf(codec, disk.files[p.phase.inode], p.index.key, p.index);
    }
    hide Inv, IsSound;
    Moves(codec, before, s, i, disk, phase);
  }

  // Verification reports success only for the publisher's own index.
  lemma VerifySound(codec: Codec, disk: Disk, a: Index)
    ensures Verify(codec, disk, a).Published? <==> IsStored(codec, disk, a) && Fits(disk.files[disk.entries[a.key].inode])
    ensures Verify(codec, disk, a).Published? ==> Verify(codec, disk, a).size == |codec.canonical(a)|
  {
  }

  // What each outcome says about the file under the key.
  predicate Explains(codec: Codec, disk: Disk, a: Index, outcome: Outcome) {
    var named := a.key in disk.entries;
    var isFile := named && disk.entries[a.key].File? && disk.entries[a.key].inode in disk.files;
    var content := if isFile then disk.files[disk.entries[a.key].inode] else "";
    var sized := isFile && 1 <= |content| <= 33_554_432;
    && (outcome.Published? <==> sized && codec.parse(content) == Some(a))
    && (outcome.Published? ==> outcome.size == |codec.canonical(a)|)
    && (outcome == Refused("datg.index.publication_boundary") <==> named && !disk.entries[a.key].File?)
    && (outcome == Refused("datg.index.publication_size") <==> isFile && !sized)
    && (outcome == Refused("datg.index.publication_conflict") <==> sized && codec.parse(content).Some? && codec.parse(content).value != a)
    && (outcome == Refused("datg.index.publication_integrity") <==>
          !named || (disk.entries[a.key].File? && (!isFile || (sized && codec.parse(content).None?))))
  }

  lemma VerifyExplains(codec: Codec, disk: Disk, a: Index)
    ensures Explains(codec, disk, a, Verify(codec, disk, a))
  {
  }

  /** An operation that raises: an integrity failure while verifying, a storage failure before, and too late to matter after. */
  lemma FailureAnswers(codec: Codec, s: State, i: nat)
    requires i < |s.publishers|
    ensures var before, after := s.publishers[i].phase, Next(codec, s, StorageFails(i)).publishers[i].phase;
            match before
            case Present => after == Closing(None, Refused("datg.index.publication_integrity"))
            case Linked(inode) => after == Closing(Some(inode), Refused("datg.index.publication_integrity"))
            case Begun => after == Closing(None, Refused("datg.index.publication"))
            case Missing => after == Closing(None, Refused("datg.index.publication"))
            case Writing(inode, _) => after == Closing(Some(inode), Refused("datg.index.publication"))
            case Flushed(inode) => after == Closing(Some(inode), Refused("datg.index.publication"))
            case _ => after == before
    ensures Next(codec, s, StorageFails(i)).disk == s.disk
  {
  }

  lemma AdvanceKeeps(codec: Codec, before: set<string>, s: State, i: nat)
    requires Inv(codec, before, s) && i < |s.publishers|
    ensures var t := Next(codec, s, Advance(i)); Inv(codec, before, t) && Keeps(s, t)
  {
    hide IsHex;
    var p := s.publishers[i];
    assert IsSound(codec, s.disk, p);
    if p.phase.Flushed? {
      LinkKeeps(codec, before, s, i);
    } else {
      VerifySound(codec, s.disk, p.index);
      var (disk, phase) := Operate(codec, s.disk, p);
      assert KeepsEntries(s.disk, disk);
      assert IsSound(codec, disk, p.(phase := phase)) by { hide Verify, Fits; }
      hide Inv, IsSound, Verify, Check;
      Moves(codec, before, s, i, disk, phase);
    }
  }

  lemma InterruptKeeps(codec: Codec, before: set<string>, s: State, i: nat, phase: Phase)
    requires Inv(codec, before, s) && i < |s.publishers|
    requires phase == Failing(s.publishers[i].phase) || (phase == Crashed && !s.publishers[i].phase.Done?)
    ensures var t := Update(s, i, s.disk, phase); Inv(codec, before, t) && Keeps(s, t)
  {
    hide IsHex;
    var p := s.publishers[i];
    assert IsSound(codec, s.disk, p);
    assert IsSound(codec, s.disk, p.(phase := phase));
    assert KeepsEntries(s.disk, s.disk);
    hide Inv, IsSound;
    Moves(codec, before, s, i, s.disk, phase);
  }

  lemma BeginKeeps(codec: Codec, before: set<string>, s: State, index: Index)
    requires Inv(codec, before, s)
    ensures var t := Next(codec, s, Begin(index)); Inv(codec, before, t) && Keeps(s, t)
  {
    hide IsHex, IsComplete, Fits;
    var t := Next(codec, s, Begin(index));
    assert forall i :: 0 <= i < |s.publishers| ==> t.publishers[i] == s.publishers[i] && IsSound(codec, s.disk, s.publishers[i]);
    assert forall key :: key in s.disk.entries ==> IsSettled(s, key);
  }

  lemma KeepsItself(s: State)
    ensures Keeps(s, s)
  {
  }

  /** Every operation of every publisher keeps the invariant and every published file. */
  lemma NextKeeps(codec: Codec, before: set<string>, s: State, step: Step)
    requires Inv(codec, before, s)
    ensures Inv(codec, before, Next(codec, s, step)) && Keeps(s, Next(codec, s, step))
  {
    hide Inv, Keeps, Operate, WriteSome;
    KeepsItself(s);
    match step
    case Begin(index) => BeginKeeps(codec, before, s, index);
    case Create(i, inode) =>
      if i < |s.publishers| && s.publishers[i].phase.Missing? && inode !in s.disk.files {
        CreateKeeps(codec, before, s, i, inode);
      }
    case Write(i, count) =>
      if i < |s.publishers| && s.publishers[i].phase.Writing? {
        WriteKeeps(codec, before, s, i, count);
      }
    case Advance(i) =>
      if i < |s.publishers| {
        AdvanceKeeps(codec, before, s, i);
      }
    case StorageFails(i) =>
      if i < |s.publishers| {
        InterruptKeeps(codec, before, s, i, Failing(s.publishers[i].phase));
      }
    case Crash(i) =>
      if i < |s.publishers| && !s.publishers[i].phase.Done? {
        InterruptKeeps(codec, before, s, i, Crashed);
      }
  }

  lemma KeepsTransitive(s: State, t: State, u: State)
    requires Keeps(s, t) && Keeps(t, u)
    ensures Keeps(s, u)
  {
    forall key | key in s.disk.entries ensures KeepsEntry(s.disk, u.disk, key) {
      assert KeepsEntry(s.disk, t.disk, key) && KeepsEntry(t.disk, u.disk, key);
    }
    forall i | 0 <= i < |s.publishers| ensures KeepsPublisher(s.publishers[i], u.publishers[i]) {
      assert KeepsPublisher(s.publishers[i], t.publishers[i]) && KeepsPublisher(t.publishers[i], u.publishers[i]);
    }
  }

  lemma {:induction false} RunKeeps(codec: Codec, before: set<string>, s: State, steps: seq<Step>)
    requires Inv(codec, before, s)
    ensures Inv(codec, before, Run(codec, s, steps)) && Keeps(s, Run(codec, s, steps))
    decreases |steps|
  {
    hide Inv, Next, Keeps;
    KeepsItself(s);
    if steps != [] {
      NextKeeps(codec, before, s, steps[0]);
      RunKeeps(codec, before, Next(codec, s, steps[0]), steps[1..]);
      KeepsTransitive(s, Next(codec, s, steps[0]), Run(codec, s, steps));
    }
  }

  // ---------- what the protocol is for ----------

  // A directory nobody is publishing into yet, with whatever files it was provisioned with.
  predicate Initial(s: State) {
    && s.publishers == []
    && forall key :: key in s.disk.entries && s.disk.entries[key].File? ==> s.disk.entries[key].inode in s.disk.files
  }

  lemma InitialSound(codec: Codec, s: State)
    requires Initial(s)
    ensures Inv(codec, s.disk.entries.Keys, s)
  {
  }

  // What a reader of the cache obtains for a key.
  datatype Reading = Nothing | Found(index: Index) | Failed(operation: string)

  function Read(codec: Codec, disk: Disk, key: string): Reading {
    if !IsHex(key, 64) then Failed("datg.index.cache_key")
    else if key !in disk.entries then Nothing
    else
      match disk.entries[key]
      case Symlink => Failed("datg.index.cache_boundary")
      case Folder => Failed("datg.index.cache_boundary")
      case File(inode) =>
        if inode !in disk.files then Failed("datg.index.cache")
        else if |disk.files[inode]| > MAX_INDEX_BYTES then Failed("datg.index.cache_size")
        else
          match codec.parse(disk.files[inode])
          case None => Failed("datg.index.cache")
          case Some(index) => if index.key == key then Found(index) else Failed("datg.index.cache_identity")
  }

  // What each reading says about the file under the key.
  predicate ExplainsReading(codec: Codec, disk: Disk, key: string, reading: Reading) {
    var hex := |key| == 64 && forall c :: c in key ==> c in "0123456789abcdef";
    var named := hex && key in disk.entries;
    var isFile := named && disk.entries[key].File? && disk.entries[key].inode in disk.files;
    var content := if isFile then disk.files[disk.entries[key].inode] else "";
    var index := if isFile && |content| <= 33_554_432 then codec.parse(content) else None;
    && (reading.Found? <==> index.Some? && index.value.key == key)
    && (reading.Found? ==> index == Some(reading.index))
    && (reading.Nothing? <==> hex && key !in disk.entries)
    && (reading == Failed("datg.index.cache_key") <==> !hex)
    && (reading == Failed("datg.index.cache_boundary") <==> named && !disk.entries[key].File?)
    && (reading == Failed("datg.index.cache_size") <==> isFile && |content| > 33_554_432)
    && (reading == Failed("datg.index.cache_identity") <==> index.Some? && index.value.key != key)
  }

  /** What a reader learns, outcome by outcome. */
  lemma ReadExplains(codec: Codec, disk: Disk, key: string)
    ensures ExplainsReading(codec, disk, key, Read(codec, disk, key))
  {
    HexTexts(key, 64);
    hide IsHex;
  }

  /** Whatever publishers do or leave behind, a reader of a key that was not provisioned sees nothing or a whole index for that key. */
  lemma ReadersSeeWholeIndexes(codec: Codec, s: State, steps: seq<Step>, key: string)
    requires Faithful(codec) && Initial(s) && key !in s.disk.entries && IsHex(key, 64)
    ensures var reading := Read(codec, Run(codec, s, steps).disk, key);
            reading.Nothing? || (reading.Found? && reading.index.key == key)
  {
    hide IsHex, Run;
    InitialSound(codec, s);
    RunKeeps(codec, s.disk.entries.Keys, s, steps);
    var disk := Run(codec, s, steps).disk;
    if key in disk.entries {
      assert IsComplete(codec, disk, key);
    }
  }

  /** What a reader once found, every later reader finds. */
  lemma ReadingsNeverChange(codec: Codec, s: State, before: seq<Step>, after: seq<Step>, key: string)
    requires Initial(s) && !Read(codec, Run(codec, s, before).disk, key).Nothing?
    ensures Read(codec, Run(codec, Run(codec, s, before), after).disk, key) == Read(codec, Run(codec, s, before).disk, key)
  {
    hide IsHex, Run;
    InitialSound(codec, s);
    RunKeeps(codec, s.disk.entries.Keys, s, before);
    var t := Run(codec, s, before);
    RunKeeps(codec, s.disk.entries.Keys, t, after);
    if key in t.disk.entries {
      assert KeepsEntry(t.disk, Run(codec, t, after).disk, key) && IsSettled(t, key);
    }
  }

  /** A publisher that reports success has its own index published, then and ever after. */
  lemma SuccessMeansPublished(codec: Codec, s: State, before: seq<Step>, after: seq<Step>, i: nat)
    requires Initial(s) && i < |Run(codec, s, before).publishers|
    requires var phase := Run(codec, s, before).publishers[i].phase; phase.Done? && phase.outcome.Published?
    ensures var p, u := Run(codec, s, before).publishers[i], Run(codec, Run(codec, s, before), after);
            && p.phase.outcome.size == |codec.canonical(p.index)|
            && i < |u.publishers| && u.publishers[i] == p && IsStored(codec, u.disk, p.index)
  {
    hide IsHex, Run;
    InitialSound(codec, s);
    RunKeeps(codec, s.disk.entries.Keys, s, before);
    var t := Run(codec, s, before);
    RunKeeps(codec, s.disk.entries.Keys, t, after);
    var u := Run(codec, t, after);
    assert KeepsPublisher(t.publishers[i], u.publishers[i]);
    assert IsSound(codec, t.disk, t.publishers[i]) && IsSound(codec, u.disk, u.publishers[i]);
  }

  /** Two publishers of different indexes under one cache key never both succeed. */
  lemma RivalsDoNotBothSucceed(codec: Codec, s: State, steps: seq<Step>, i: nat, j: nat)
    requires Initial(s) && i < |Run(codec, s, steps).publishers| && j < |Run(codec, s, steps).publishers|
    requires var ps := Run(codec, s, steps).publishers;
             && ps[i].phase.Done? && ps[i].phase.outcome.Published? && ps[j].phase.Done? && ps[j].phase.outcome.Published?
             && ps[i].index.key == ps[j].index.key
    ensures var ps := Run(codec, s, steps).publishers; ps[i].index == ps[j].index
  {
    hide IsHex, Run;
    InitialSound(codec, s);
    RunKeeps(codec, s.disk.entries.Keys, s, steps);
    var t := Run(codec, s, steps);
    assert IsSound(codec, t.disk, t.publishers[i]) && IsSound(codec, t.disk, t.publishers[j]);
  }
}
