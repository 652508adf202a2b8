/** The publisher and the read-only cache as programs over one directory. */
module DatgPublisher {
  import opened Wrappers
  import opened Strings
  import opened DatgPublication

  // The cache root, and the file operations made on it.
  class IndexDirectory {
    var files: map<nat, string>
    var entries: map<string, Node>
    var temporaries: set<nat>
    var nextInode: nat

    ghost predicate Valid()
      reads this
    {
      (forall inode :: inode in files ==> inode < nextInode) && temporaries <= files.Keys
    }

    function Contents(): Disk
      reads this
    {
      Disk(files, entries, temporaries)
    }

    constructor ()
      ensures Valid() && Contents() == Disk(map[], map[], {})
    {
      files, entries, temporaries, nextInode := map[], map[], {}, 0;
    }

    // tempfile.mkstemp
    method MakeTemporary() returns (inode: nat)
      requires Valid()
      modifies this
      ensures Valid() && inode !in old(files)
      ensures Contents() == old(Contents()).(files := old(files)[inode := ""], temporaries := old(temporaries) + {inode})
    {
      inode := nextInode;
      nextInode := nextInode + 1;
      files := files[inode := ""];
      temporaries := temporaries + {inode};
    }

    method WriteFile(inode: nat, content: string)
      requires Valid() && inode in files
      modifies this`files
      ensures Valid() && Contents() == old(Contents()).(files := old(files)[inode := content])
    {
      files := files[inode := content];
    }

    // os.link, an existing name being left as it is
    method LinkEntry(key: string, inode: nat)
      modifies this`entries
      ensures Contents() == Link(old(Contents()), key, inode) && (old(Valid()) ==> Valid())
    {
      if key !in entries {
        entries := entries[key := File(inode)];
      }
    }

    method Remove(inode: nat)
      modifies this`temporaries
      ensures Contents() == Unlink(old(Contents()), Some(inode)) && (old(Valid()) ==> Valid())
    {
      temporaries := temporaries - {inode};
    }
  }

  lemma {:induction false} RunOneMore(codec: Codec, s: State, steps: seq<Step>, step: Step)
    ensures Run(codec, s, steps + [step]) == Next(codec, Run(codec, s, steps), step)
    decreases |steps|
  {
    hide Next;
    if steps == [] {
      assert ([] + [step])[1..] == [];
      assert Run(codec, Next(codec, s, step), []) == Next(codec, s, step);
    } else {
      RunOneMore(codec, Next(codec, s, steps[0]), steps[1..], step);
      assert (steps + [step])[1..] == steps[1..] + [step];
    }
  }

  // The directory and the only publisher are where these steps of the protocol lead.
  ghost predicate Follows(codec: Codec, start: Disk, steps: seq<Step>, disk: Disk, p: Publisher) {
    Run(codec, State(start, []), steps) == State(disk, [p])
  }

  lemma Started(codec: Codec, start: Disk, a: Index)
    ensures Follows(codec, start, [Begin(a)], start, Publisher(a, Begun))
  {
    RunOneMore(codec, State(start, []), [], Begin(a));
    assert [] + [Begin(a)] == [Begin(a)];
  }

  lemma Followed(codec: Codec, start: Disk, steps: seq<Step>, disk: Disk, p: Publisher, step: Step, disk': Disk, phase: Phase)
    requires Follows(codec, start, steps, disk, p)
    requires Next(codec, State(disk, [p]), step) == State(disk', [p.(phase := phase)])
    ensures Follows(codec, start, steps + [step], disk', p.(phase := phase))
  {
    hide Next;
    RunOneMore(codec, State(start, []), steps, step);
  }

  lemma FollowedAdvance(codec: Codec, start: Disk, steps: seq<Step>, disk: Disk, p: Publisher)
    requires Follows(codec, start, steps, disk, p)
    ensures var (disk', phase) := Operate(codec, disk, p); Follows(codec, start, steps + [Advance(0)], disk', p.(phase := phase))
  {
    hide Operate, Follows;
    var (disk', phase) := Operate(codec, disk, p);
    assert Next(codec, State(disk, [p]), Advance(0)) == State(disk', [p.(phase := phase)]);
    Followed(codec, start, steps, disk, p, Advance(0), disk', phase);
  }

  lemma FollowedCreate(codec: Codec, start: Disk, steps: seq<Step>, disk: Disk, p: Publisher, inode: nat)
    requires Follows(codec, start, steps, disk, p) && p.phase.Missing? && inode !in disk.files
    ensures Follows(codec, start, steps + [Create(0, inode)],
                    disk.(files := disk.files[inode := ""], temporaries := disk.temporaries + {inode}), p.(phase := Writing(inode, 0)))
  {
    hide Follows;
    Followed(codec, start, steps, disk, p, Create(0, inode),
      disk.(files := disk.files[inode := ""], temporaries := disk.temporaries + {inode}), Writing(inode, 0));
  }

  lemma FollowedWrite(codec: Codec, start: Disk, steps: seq<Step>, disk: Disk, p: Publisher, inode: nat)
    requires Follows(codec, start, steps, disk, p) && p.phase == Writing(inode, 0)
    ensures var payload := codec.canonical(p.index);
            Follows(codec, start, steps + [Write(0, |payload|)], disk.(files := disk.files[inode := payload]), p.(phase := Flushed(inode)))
  {
    hide Follows;
    var payload := codec.canonical(p.index);
    assert payload[..|payload|] == payload;
    Followed(codec, start, steps, disk, p, Write(0, |payload|), disk.(files := disk.files[inode := payload]), Flushed(inode));
  }

  class FilesystemDatgIndexPublisher {
    const root: IndexDirectory
    const codec: Codec

    constructor (root: IndexDirectory, codec: Codec)
      ensures this.root == root && this.codec == codec
    {
      this.root, this.codec := root, codec;
    }

    method VerifyExisting(expected: Index) returns (outcome: Outcome)
      ensures outcome == Verify(codec, root.Contents(), expected)
      ensures Explains(codec, root.Contents(), expected, outcome)
    {
      hide Explains;
      VerifyExplains(codec, root.Contents(), expected);
      if expected.key !in root.entries {
        return INTEGRITY;
      }
      var node := root.entries[expected.key];
      if !node.File? {
        return BOUNDARY;
      }
      if node.inode !in root.files {
        return INTEGRITY;
      }
      var content := root.files[node.inode];
      if |content| < 1 || |content| > MAX_INDEX_BYTES {
        return SIZE;
      }
      var observed := codec.parse(content);
      if observed.None? {
        return INTEGRITY;
      }
      return if observed.value == expected then Published(|codec.canonical(expected)|) else CONFLICT;
    }

    /**
     * Publishing succeeds exactly when the key and the size are acceptable and no other index has
     * the key; it leaves no temporary file, and is one of the executions of the protocol.
     */
    method Publish(artifact: Index) returns (outcome: Outcome)
      requires root.Valid()
      modifies root
      ensures root.Valid() && root.temporaries == old(root.temporaries)
      ensures exists steps :: Follows(codec, old(root.Contents()), steps, root.Contents(), Publisher(artifact, Done(outcome)))
      ensures Faithful(codec) ==>
                (outcome.Published? <==>
                   && IsHex(artifact.key, 64) && Fits(codec.canonical(artifact))
                   && (artifact.key in old(root.entries) ==>
                         IsStored(codec, old(root.Contents()), artifact)
                         && Fits(old(root.files)[old(root.entries)[artifact.key].inode])))
      ensures outcome.Published? ==> outcome.size == |codec.canonical(artifact)| && IsStored(codec, root.Contents(), artifact)
      ensures !IsHex(artifact.key, 64) ==> outcome == Refused("datg.index.publication_identity")
      ensures IsHex(artifact.key, 64) && !(1 <= |codec.canonical(artifact)| <= 33_554_432) ==> outcome == Refused("datg.index.publication_size")
      ensures !IsHex(artifact.key, 64) || !(1 <= |codec.canonical(artifact)| <= 33_554_432) || artifact.key in old(root.entries) ==>
                root.Contents() == old(root.Contents())
      ensures IsHex(artifact.key, 64) && 1 <= |codec.canonical(artifact)| <= 33_554_432 ==>
                && Explains(codec, root.Contents(), artifact, outcome)
                && (artifact.key !in old(root.entries) ==> IsAdded(old(root.Contents()), root.Contents(), artifact.key, codec.canonical(artifact)))
    {
      hide IsHex, Follows, Explains, IsAdded;
      ghost var start, steps, p := root.Contents(), [Begin(artifact)], Publisher(artifact, Begun);
      Started(codec, start, artifact);
      var phase := Check(codec, root.Contents(), artifact);
      Followed(codec, start, steps, start, p, Advance(0), start, phase);
      steps, p := steps + [Advance(0)], p.(phase := phase);
      VerifyExplains(codec, start, artifact);
      if phase.Closing? {
        assert phase.outcome == BOUNDARY ==> Explains(codec, start, artifact, phase.outcome);
        Followed(codec, start, steps, start, p, Advance(0), start, Done(phase.outcome));
        return phase.outcome;
      }
      if phase.Present? {
        outcome := VerifyExisting(artifact);
        VerifySound(codec, start, artifact);
        FollowsPresent(codec, start, steps, artifact);
        return;
      }
      outcome, steps := WriteAndLink(artifact, start, steps);
    }

    method WriteAndLink(artifact: Index, ghost start: Disk, ghost steps: seq<Step>) returns (outcome: Outcome, ghost steps': seq<Step>)
      requires root.Valid() && artifact.key !in root.entries && Fits(codec.canonical(artifact))
      requires Follows(codec, start, steps, root.Contents(), Publisher(artifact, Missing))
      modifies root
      ensures root.Valid() && root.temporaries == old(root.temporaries)
      ensures Follows(codec, start, steps', root.Contents(), Publisher(artifact, Done(outcome)))
      ensures Faithful(codec) ==> outcome.Published?
      ensures outcome.Published? ==> outcome.size == |codec.canonical(artifact)| && IsStored(codec, root.Contents(), artifact)
      ensures Explains(codec, root.Contents(), artifact, outcome)
      ensures IsAdded(old(root.Contents()), root.Contents(), artifact.key, codec.canonical(artifact))
    {
      hide IsHex, Follows, Next, Verify, Explains;
      steps' := steps;
      ghost var p := Publisher(artifact, Missing);
      var payload := codec.canonical(artifact);
      ghost var disk := root.Contents();
      var inode := root.MakeTemporary();
      FollowedCreate(codec, start, steps', disk, p, inode);
      steps', p, disk := steps' + [Create(0, inode)], p.(phase := Writing(inode, 0)), root.Contents();
      root.WriteFile(inode, payload);
      FollowedWrite(codec, start, steps', disk, p, inode);
      steps', p, disk := steps' + [Write(0, |payload|)], p.(phase := Flushed(inode)), root.Contents();
      root.LinkEntry(artifact.key, inode);
      FollowedAdvance(codec, start, steps', disk, p);
      steps', p, disk := steps' + [Advance(0)], p.(phase := Linked(inode)), root.Contents();
      outcome := VerifyExisting(artifact);
      VerifySound(codec, disk, artifact);
      FollowedAdvance(codec, start, steps', disk, p);
      steps', p := steps' + [Advance(0)], p.(phase := Closing(Some(inode), outcome));
      root.Remove(inode);
      SameExplanation(codec, disk, root.Contents(), artifact, outcome);
      FollowedAdvance(codec, start, steps', disk, p);
      steps' := steps' + [Advance(0)];
    }
  }

  // One more file, under the key, with this content.
  predicate IsAdded(before: Disk, after: Disk, key: string, content: string) {
    && key in after.entries && after.entries == before.entries[key := after.entries[key]]
    && after.entries[key].File? && after.entries[key].inode !in before.files
    && after.files == before.files[after.entries[key].inode := content]
  }

  lemma SameExplanation(codec: Codec, a: Disk, b: Disk, index: Index, outcome: Outcome)
    requires a.files == b.files && a.entries == b.entries
    ensures Explains(codec, a, index, outcome) <==> Explains(codec, b, index, outcome)
  {
  }

  lemma FollowsPresent(codec: Codec, start: Disk, steps: seq<Step>, a: Index)
    requires Follows(codec, start, steps, start, Publisher(a, Present))
    ensures Follows(codec, start, steps + [Advance(0)] + [Advance(0)], start, Publisher(a, Done(Verify(codec, start, a))))
  {
    hide Follows, Verify;
    var outcome := Verify(codec, start, a);
    Followed(codec, start, steps, start, Publisher(a, Present), Advance(0), start, Closing(None, outcome));
    Followed(codec, start, steps + [Advance(0)], start, Publisher(a, Closing(None, outcome)), Advance(0), start, Done(outcome));
  }

  class ReadOnlyFilesystemDatgIndexCache {
    const root: IndexDirectory
    const codec: Codec

    constructor (root: IndexDirectory, codec: Codec)
      ensures this.root == root && this.codec == codec
    {
      this.root, this.codec := root, codec;
    }

    method Fetch(key: string) returns (reading: Reading)
      ensures reading == Read(codec, root.Contents(), key)
      ensures ExplainsReading(codec, root.Contents(), key, reading)
    {
      ReadExplains(codec, root.Contents(), key);
      hide IsHex, ExplainsReading;
      if !IsHex(key, 64) {
        return Failed("datg.index.cache_key");
      }
      if key in root.entries && !root.entries[key].File? {
        return Failed("datg.index.cache_boundary");
      }
      if key !in root.entries {
        return Nothing;
      }
      var inode := root.entries[key].inode;
      if inode !in root.files {
        return Failed("datg.index.cache");
      }
      if |root.files[inode]| > MAX_INDEX_BYTES {
        return Failed("datg.index.cache_size");
      }
      var index := codec.parse(root.files[inode]);
      if index.None? {
        return Failed("datg.index.cache");
      }
      return if index.value.key == key then Found(index.value) else Failed("datg.index.cache_identity");
    }
  }
}
