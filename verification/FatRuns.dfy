// Arbitrary runs of file operations: the FAT stays a family of disjoint, acyclic,
// end-marked chains, and each operation leaves every other chain's bytes alone.
module FatRuns {
  import opened Bytes
  import opened FatVolume
  import opened FatChains
  import opened FatFamily
  import opened FatContent
  import opened FatDir
  import opened FatDirLaws
  import opened FatCreate
  import opened FatRoundTrip
  import FatTable

  datatype Op =
    | CreateOp(dch: seq<nat>, data: seq<byte>, name: seq<byte>)
    | WriteOp(ch: seq<nat>, input: seq<byte>, offset: nat)
    | UnlinkOp(dch: seq<nat>, name: seq<byte>)
    | UpdateOp(dch: seq<nat>, name: seq<byte>, entry: Slot)

  /** A mounted volume together with the chains its FAT consists of. */
  datatype State = State(vol: Volume, fam: set<seq<nat>>)

  ghost predicate Ok(st: State, cb: nat) {
    VolumeShape(st.vol, cb) && Family(st.vol.fat, st.fam)
  }

  /** What the code needs of its callers: directories and files are chains of the volume, and a
      directory entry to unlink is empty or belongs to a file with a chain of its own. */
  ghost predicate Legal(st: State, cb: nat, op: Op) {
    match op
    case CreateOp(dch, data, name) => dch in st.fam && |data| < TWO32 && |name| >= 11
    case WriteOp(ch, input, offset) => ch in st.fam && offset < |ch| * cb
    case UnlinkOp(dch, name) => dch in st.fam && FatContent.Fits(st.vol, dch) && (DirHas(st.vol, dch, name) ==> Empty(st, dch, name) || OwnsFile(st, dch, name))
    case UpdateOp(dch, name, entry) => dch in st.fam
  }

  /** The entry of a file that never got a cluster, or of a volume label. */
  ghost predicate Empty(st: State, dch: seq<nat>, name: seq<byte>)
    requires FatContent.Fits(st.vol, dch) && DirHas(st.vol, dch, name)
  {
    StartCluster(EntryAt(st.vol, DirFind(st.vol, dch, name))) == 0
  }

  /** The chain of the file an entry names: not the directory's own. */
  ghost predicate OwnsFile(st: State, dch: seq<nat>, name: seq<byte>)
    requires FatContent.Fits(st.vol, dch) && DirHas(st.vol, dch, name)
  {
    exists ch :: ch in st.fam && ch != dch && ch != [] && ch[0] == StartCluster(EntryAt(st.vol, DirFind(st.vol, dch, name)))
  }

  ghost function FileOf(st: State, dch: seq<nat>, name: seq<byte>): (ch: seq<nat>)
    requires FatContent.Fits(st.vol, dch) && DirHas(st.vol, dch, name) && OwnsFile(st, dch, name)
    ensures ch in st.fam && ch != dch && ch != [] && ch[0] == StartCluster(EntryAt(st.vol, DirFind(st.vol, dch, name)))
  {
    var ch :| ch in st.fam && ch != dch && ch != [] && ch[0] == StartCluster(EntryAt(st.vol, DirFind(st.vol, dch, name)));
    ch
  }

  // ----- one step of each kind -----

  ghost predicate CreateStep(st: State, cb: nat, op: Op, st': State)
    requires Ok(st, cb) && Legal(st, cb, op) && op.CreateOp?
  {
    var r := Create(st.vol, cb, op.dch, op.data, op.name);
    && st'.vol == r.vol
    && if |FreeList(st.vol.fat)| < ClustersFor(|op.data|, cb) then st'.fam == st.fam
       else if r.code == 0 then st'.fam == st.fam - {op.dch} + {NewDir(st.vol, cb, op.dch, op.data)} + {NewFile(st.vol, cb, |op.data|)}
       else st'.fam == st.fam + {NewFile(st.vol, cb, |op.data|)}   // the new chain is left behind
  }

  lemma FailedCreate(v: Volume, cb: nat, fam: set<seq<nat>>, dch: seq<nat>, data: seq<byte>, name: seq<byte>)
    requires VolumeShape(v, cb) && Family(v.fat, fam) && dch in fam && |data| < TWO32 && |name| >= 11
    requires |FreeList(v.fat)| >= ClustersFor(|data|, cb) && Create(v, cb, dch, data, name).code != 0
    ensures VolumeShape(Create(v, cb, dch, data, name).vol, cb)
    ensures Family(Create(v, cb, dch, data, name).vol.fat, fam + {NewFile(v, cb, |data|)})
  {
    var cl := NewFile(v, cb, |data|);
    FilledKeeps(v, cb, dch, cl, data);
    NewClusters(v.fat, cl);
    FamilyNew(v.fat, fam, cl);
    var w := Filled(v, cb, cl, data);
    InsertCode(w, cb, dch, NewEntry(name, cl[0], |data|));
  }

  lemma CreateOk(st: State, cb: nat, op: Op, st': State)
    requires Ok(st, cb) && Legal(st, cb, op) && op.CreateOp? && CreateStep(st, cb, op, st')
    ensures Ok(st', cb)
  {
    assert IsChain(st.vol.fat, op.dch);
    hide Create, Family, NewFile, NewDir, IsChain;
    if |FreeList(st.vol.fat)| < ClustersFor(|op.data|, cb) {
      CreateRefused(st.vol, cb, op.dch, op.data, op.name);
    } else if Create(st.vol, cb, op.dch, op.data, op.name).code == 0 {
      CreateFamily(st.vol, cb, st.fam, op.dch, op.data, op.name);
      CreateKeeps(st.vol, cb, op.dch, op.data, op.name);
    } else {
      FailedCreate(st.vol, cb, st.fam, op.dch, op.data, op.name);
    }
  }

  lemma CreateRefused(v: Volume, cb: nat, dch: seq<nat>, data: seq<byte>, name: seq<byte>)
    requires VolumeShape(v, cb) && IsChain(v.fat, dch) && |data| < TWO32 && |name| >= 11
    requires |FreeList(v.fat)| < ClustersFor(|data|, cb)
    ensures Create(v, cb, dch, data, name) == Outcome(v, 2)
  {
  }

  /** The clusters an offset write appends. */
  ghost predicate WriteStep(st: State, cb: nat, op: Op, st': State)
    requires Ok(st, cb) && Legal(st, cb, op) && op.WriteOp?
  {
    var r := OffsetWrite(st.vol, cb, op.ch, op.input, op.offset);
    && st'.vol == r.vol
    && exists ext :: WriteMeans(st.vol, cb, op.ch, op.input, op.offset, r.vol, r.count, ext) && st'.fam == st.fam - {op.ch} + {op.ch + ext}
  }

  lemma WriteFamily(v: Volume, cb: nat, fam: set<seq<nat>>, ch: seq<nat>, w: Volume, ext: seq<nat>)
    requires Family(v.fat, fam) && ch in fam && GrowsBy(v, ch, w, ext) && Keeps(v, w, ch + ext)
    ensures Family(w.fat, fam - {ch} + {ch + ext})
  {
    forall c | c in ch + ext ensures c in ch || (2 <= c < |v.fat| && IsFree(v.fat, c)) {
      if c !in ch { assert c in ext; }
    }
    FamilySwap(v.fat, fam, w.fat, ch, ch + ext);
  }

  lemma WriteOk(st: State, cb: nat, op: Op, st': State)
    requires Ok(st, cb) && Legal(st, cb, op) && op.WriteOp? && WriteStep(st, cb, op, st')
    ensures Ok(st', cb)
  {
    var r := OffsetWrite(st.vol, cb, op.ch, op.input, op.offset);
    var ext :| WriteMeans(st.vol, cb, op.ch, op.input, op.offset, r.vol, r.count, ext) && st'.fam == st.fam - {op.ch} + {op.ch + ext};
    hide *;
    MeansParts(st.vol, cb, op.ch, op.input, op.offset, r.vol, r.count, ext);
    WriteFamily(st.vol, cb, st.fam, op.ch, r.vol, ext);
    OkMake(st', cb);
  }

  lemma OkMake(st: State, cb: nat)
    requires VolumeShape(st.vol, cb) && Family(st.vol.fat, st.fam)
    ensures Ok(st, cb)
  {
  }

  ghost predicate UnlinkStep(st: State, cb: nat, op: Op, st': State)
    requires Ok(st, cb) && Legal(st, cb, op) && op.UnlinkOp?
  {
    UnlinkSound(st, cb, op);
    && st'.vol == Unlink(st.vol, op.dch, op.name).vol
    && st'.fam == if DirHas(st.vol, op.dch, op.name) && !Empty(st, op.dch, op.name) then st.fam - {FileOf(st, op.dch, op.name)} else st.fam
  }

  lemma UnlinkSound(st: State, cb: nat, op: Op)
    requires Ok(st, cb) && Legal(st, cb, op) && op.UnlinkOp?
    ensures Sound(st.vol, op.dch, op.name)
    ensures DirHas(st.vol, op.dch, op.name) ==> Empty(st, op.dch, op.name) || OwnsFile(st, op.dch, op.name)
  {
    FamilyInRange(st.vol.fat, st.fam);
    if DirHas(st.vol, op.dch, op.name) && !Empty(st, op.dch, op.name) {
      var ch := FileOf(st, op.dch, op.name);
      assert IsChain(st.vol.fat, ch);
    }
  }

  lemma UnlinkOk(st: State, cb: nat, op: Op, st': State)
    requires Ok(st, cb) && Legal(st, cb, op) && op.UnlinkOp? && UnlinkStep(st, cb, op, st')
    ensures Ok(st', cb)
  {
    UnlinkSound(st, cb, op);
    if DirHas(st.vol, op.dch, op.name) {
      UnlinkFat(st.vol, op.dch, op.name);
      UnlinkShape(st.vol, cb, op.dch, op.name);
      if !Empty(st, op.dch, op.name) {
        FamilyFree(st.vol.fat, st.fam, FileOf(st, op.dch, op.name));
      }
    }
  }

  lemma UnlinkShape(v: Volume, cb: nat, dch: seq<nat>, name: seq<byte>)
    requires VolumeShape(v, cb) && Sound(v, dch, name)
    ensures VolumeShape(Unlink(v, dch, name).vol, cb)
    ensures forall c :: 0 <= c < |v.data| && c !in dch ==> Unlink(v, dch, name).vol.data[c] == v.data[c]
  {
  }

  ghost predicate UpdateStep(st: State, cb: nat, op: Op, st': State)
    requires Ok(st, cb) && Legal(st, cb, op) && op.UpdateOp?
  {
    FatContent.Fits(st.vol, op.dch) && st' == State(Update(st.vol, op.dch, op.name, op.entry).vol, st.fam)
  }

  lemma UpdateOk(st: State, cb: nat, op: Op, st': State)
    requires Ok(st, cb) && Legal(st, cb, op) && op.UpdateOp? && UpdateStep(st, cb, op, st')
    ensures Ok(st', cb)
    ensures st'.vol.fat == st.vol.fat
    ensures forall c :: 0 <= c < |st.vol.data| && c !in op.dch ==> st'.vol.data[c] == st.vol.data[c]
  {
  }

  // ----- runs -----

  ghost predicate Step(st: State, cb: nat, op: Op, st': State) {
    && Ok(st, cb) && Legal(st, cb, op)
    && match op
       case CreateOp(_, _, _) => CreateStep(st, cb, op, st')
       case WriteOp(_, _, _) => WriteStep(st, cb, op, st')
       case UnlinkOp(_, _) => UnlinkStep(st, cb, op, st')
       case UpdateOp(_, _, _) => UpdateStep(st, cb, op, st')
  }

  lemma StepOk(st: State, cb: nat, op: Op, st': State)
    requires Step(st, cb, op, st')
    ensures Ok(st', cb)
  {
    hide CreateStep, WriteStep, UnlinkStep, UpdateStep, Ok, Legal;
    match op
    case CreateOp(_, _, _) => CreateOk(st, cb, op, st');
    case WriteOp(_, _, _) => WriteOk(st, cb, op, st');
    case UnlinkOp(_, _) => UnlinkOk(st, cb, op, st');
    case UpdateOp(_, _, _) => UpdateOk(st, cb, op, st');
  }

  /** `trace` lists the states of a run of the operations `ops`. */
  ghost predicate IsRun(trace: seq<State>, cb: nat, ops: seq<Op>) {
    |trace| == |ops| + 1 && forall i :: 0 <= i < |ops| ==> Step(trace[i], cb, ops[i], trace[i + 1])
  }

  /** In every state of every run the FAT is a family of pairwise disjoint, acyclic chains that
      together hold every used entry. */
  lemma {:induction false} RunKeepsFamily(trace: seq<State>, cb: nat, ops: seq<Op>, i: nat)
    requires IsRun(trace, cb, ops) && i <= |ops| && Ok(trace[0], cb)
    ensures Ok(trace[i], cb)
  {
    if i > 0 {
      RunKeepsFamily(trace, cb, ops, i - 1);
      StepOk(trace[i - 1], cb, ops[i - 1], trace[i - 1 + 1]);
    }
  }

  /** No run gets stuck: every legal operation has a next state. */
  lemma StepExists(st: State, cb: nat, op: Op) returns (st': State)
    requires Ok(st, cb) && Legal(st, cb, op)
    ensures Step(st, cb, op, st')
  {
    match op
    case CreateOp(dch, data, name) =>
      var r := Create(st.vol, cb, dch, data, name);
      if |FreeList(st.vol.fat)| < ClustersFor(|data|, cb) {
        st' := State(r.vol, st.fam);
      } else if r.code == 0 {
        st' := State(r.vol, st.fam - {dch} + {NewDir(st.vol, cb, dch, data)} + {NewFile(st.vol, cb, |data|)});
      } else {
        st' := State(r.vol, st.fam + {NewFile(st.vol, cb, |data|)});
      }
    case WriteOp(ch, input, offset) =>
      var ext := OffsetWriteRefines(st.vol, cb, ch, input, offset);
      st' := State(OffsetWrite(st.vol, cb, ch, input, offset).vol, st.fam - {ch} + {ch + ext});
    case UnlinkOp(dch, name) =>
      UnlinkSound(st, cb, op);
      st' := State(Unlink(st.vol, dch, name).vol, if DirHas(st.vol, dch, name) && !Empty(st, dch, name) then st.fam - {FileOf(st, dch, name)} else st.fam);
    case UpdateOp(dch, name, entry) =>
      st' := State(Update(st.vol, dch, name, entry).vol, st.fam);
  }

  // ----- what an operation does not touch -----

  /** The chain an operation works on, and for unlink the file's chain. */
  ghost predicate Touches(st: State, cb: nat, op: Op, ch: seq<nat>)
    requires Ok(st, cb) && Legal(st, cb, op)
  {
    match op
    case CreateOp(dch, _, _) => ch == dch
    case WriteOp(c, _, _) => ch == c
    case UnlinkOp(dch, name) => ch == dch || (DirHas(st.vol, dch, name) && !Empty(st, dch, name) && ch == FileOf(st, dch, name))
    case UpdateOp(dch, _, _) => ch == dch
  }

  lemma OtherChainApart(st: State, ch: seq<nat>, used: seq<nat>, own: seq<nat>)
    requires Family(st.vol.fat, st.fam) && ch in st.fam && own in st.fam && ch != own
    requires forall c :: c in used ==> c in own || (c < |st.vol.fat| && IsFree(st.vol.fat, c))
    ensures forall c :: c in ch ==> c < |st.vol.fat| && c !in used
  {
    forall c | c in ch ensures c < |st.vol.fat| && c !in used {
      ChainUsed(st.vol.fat, ch, c);
      assert Apart(ch, own);
    }
  }

  lemma KeptContent(v: Volume, w: Volume, used: seq<nat>, ch: seq<nat>)
    requires Keeps(v, w, used) && FatContent.Fits(v, ch) && forall c :: c in ch ==> c < |v.fat| && c !in used
    ensures FatContent.Fits(w, ch) && Content(w, ch) == Content(v, ch)
  {
    ContentFrame(v, w, ch);
  }

  /** Every chain an operation does not work on stays in the family with the same bytes. */
  lemma StepFrame(st: State, cb: nat, op: Op, st': State, ch: seq<nat>)
    requires Step(st, cb, op, st') && ch in st.fam && !Touches(st, cb, op, ch)
    ensures ch in st'.fam
    ensures FatContent.Fits(st.vol, ch) && FatContent.Fits(st'.vol, ch) && Content(st'.vol, ch) == Content(st.vol, ch)
  {
    assert IsChain(st.vol.fat, ch);
    ChainFits(st.vol, ch);
    match op
    case CreateOp(_, _, _) => CreateFrame(st, cb, op, st', ch);
    case WriteOp(_, _, _) => WriteFrame(st, cb, op, st', ch);
    case UnlinkOp(_, _) => UnlinkFrame(st, cb, op, st', ch);
    case UpdateOp(_, _, _) => UpdateFrame(st, cb, op, st', ch);
  }

  lemma ChainFits(v: Volume, ch: seq<nat>)
    requires IsChain(v.fat, ch) && |v.data| == |v.fat|
    ensures FatContent.Fits(v, ch)
  {
  }

  // ----- the rest of the card -----

  lemma StepRest(st: State, cb: nat, op: Op, st': State)
    requires Step(st, cb, op, st')
    ensures st'.vol.rest == st.vol.rest
  {
    match op
    case CreateOp(_, _, _) => CreateRest(st, cb, op, st');
    case WriteOp(_, _, _) => hide OffsetWrite, IsChain, VolumeShape;
    case UnlinkOp(_, _) => hide FreeChain, DirFind, IsChain, VolumeShape;
    case UpdateOp(_, _, _) => hide DirFind, IsChain, VolumeShape;
  }

  lemma CreateRest(st: State, cb: nat, op: Op, st': State)
    requires Step(st, cb, op, st') && op.CreateOp?
    ensures st'.vol.rest == st.vol.rest
  {
    var v := st.vol;
    hide Create, IsChain;
    if |FreeList(v.fat)| < ClustersFor(|op.data|, cb) {
      CreateRefused(v, cb, op.dch, op.data, op.name);
    } else {
      var used := CreateUses(v, cb, op.dch, op.data, op.name);
    }
  }

  /** Over every run no byte of the card changes that belongs neither to a FAT entry nor to a data
      cluster: partition table, boot sector, FAT copies, what lies behind the last cluster. */
  lemma {:induction false} RunKeepsRest(trace: seq<State>, cb: nat, ops: seq<Op>, i: nat)
    requires IsRun(trace, cb, ops) && i <= |ops|
    ensures trace[i].vol.rest == trace[0].vol.rest
  {
    hide Step;
    if i > 0 {
      RunKeepsRest(trace, cb, ops, i - 1);
      StepRest(trace[i - 1], cb, ops[i - 1], trace[i - 1 + 1]);
    }
  }

  lemma CreateFrame(st: State, cb: nat, op: Op, st': State, ch: seq<nat>)
    requires Step(st, cb, op, st') && op.CreateOp? && ch in st.fam && ch != op.dch && FatContent.Fits(st.vol, ch)
    ensures ch in st'.fam && FatContent.Fits(st'.vol, ch) && Content(st'.vol, ch) == Content(st.vol, ch)
  {
    var v, dch, data := st.vol, op.dch, op.data;
    if |FreeList(v.fat)| < ClustersFor(|data|, cb) {
      CreateRefused(v, cb, dch, data, op.name);
    } else {
      var used := CreateUses(v, cb, dch, data, op.name);
      hide *;
      StepParts(st, cb, op, st');
      OtherChainApart(st, ch, used, dch);
      KeptContent(v, st'.vol, used, ch);
    }
  }

  lemma StepParts(st: State, cb: nat, op: Op, st': State)
    requires Step(st, cb, op, st')
    ensures Family(st.vol.fat, st.fam) && VolumeShape(st.vol, cb)
    ensures op.CreateOp? ==> op.dch in st.fam && VolumeShape(st.vol, cb) && |op.data| < TWO32 && |op.data| < 0x1_0000_0000 && |op.name| >= 11 && IsChain(st.vol.fat, op.dch)
    ensures op.CreateOp? ==> st'.vol == Create(st.vol, cb, op.dch, op.data, op.name).vol && forall ch :: ch in st.fam && ch != op.dch ==> ch in st'.fam
  {
  }

  /** All a create touches: the directory's clusters and clusters that were free. */
  lemma CreateUses(v: Volume, cb: nat, dch: seq<nat>, data: seq<byte>, name: seq<byte>) returns (used: seq<nat>)
    requires VolumeShape(v, cb) && IsChain(v.fat, dch) && |data| < TWO32 && |name| >= 11
    requires |FreeList(v.fat)| >= ClustersFor(|data|, cb)
    ensures Keeps(v, Create(v, cb, dch, data, name).vol, used)
    ensures forall c :: c in used ==> c in dch || (c < |v.fat| && IsFree(v.fat, c))
  {
    var cl := NewFile(v, cb, |data|);
    FilledKeeps(v, cb, dch, cl, data);
    NewClusters(v.fat, cl);
    var w := Filled(v, cb, cl, data);
    if |data| > |cl| * cb {
      used := cl;
    } else {
      var e := NewEntry(name, cl[0], |data|);
      InsertKeeps(w, cb, dch, e);
      KeepsBoth(v, w, Create(v, cb, dch, data, name).vol, cl, InsertedChain(w, cb, dch));
      used := cl + InsertedChain(w, cb, dch);
      InsertedFrom(v, w, cb, dch, cl);
    }
  }

  lemma InsertedFrom(v: Volume, w: Volume, cb: nat, dch: seq<nat>, cl: seq<nat>)
    requires VolumeShape(w, cb) && IsChain(w.fat, dch) && Keeps(v, w, cl) && IsChain(w.fat, cl)
    requires forall i :: 0 <= i < |cl| ==> cl[i] < |v.fat| && IsFree(v.fat, cl[i])
    ensures forall c :: c in cl + InsertedChain(w, cb, dch) ==> c in dch || (c < |v.fat| && IsFree(v.fat, c))
  {
    forall c | c in cl + InsertedChain(w, cb, dch) ensures c in dch || (c < |v.fat| && IsFree(v.fat, c)) {
      if c !in dch && c !in cl {
        assert c in InsertedChain(w, cb, dch);
        assert c == FreeList(w.fat)[0];
        assert w.fat[c] == v.fat[c];
      }
    }
  }

  lemma WriteFrame(st: State, cb: nat, op: Op, st': State, ch: seq<nat>)
    requires Step(st, cb, op, st') && op.WriteOp? && ch in st.fam && ch != op.ch && FatContent.Fits(st.vol, ch)
    ensures ch in st'.fam && FatContent.Fits(st'.vol, ch) && Content(st'.vol, ch) == Content(st.vol, ch)
  {
    var r := OffsetWrite(st.vol, cb, op.ch, op.input, op.offset);
    var ext :| WriteMeans(st.vol, cb, op.ch, op.input, op.offset, r.vol, r.count, ext) && st'.fam == st.fam - {op.ch} + {op.ch + ext};
    var used := op.ch + ext;
    forall c | c in used ensures c in op.ch || (c < |st.vol.fat| && IsFree(st.vol.fat, c)) {
      if c !in op.ch { assert c in ext; }
    }
    OtherChainApart(st, ch, used, op.ch);
    KeptContent(st.vol, st'.vol, used, ch);
  }

  lemma UnlinkFrame(st: State, cb: nat, op: Op, st': State, ch: seq<nat>)
    requires Step(st, cb, op, st') && op.UnlinkOp? && ch in st.fam && !Touches(st, cb, op, ch) && FatContent.Fits(st.vol, ch)
    ensures ch in st'.fam && FatContent.Fits(st'.vol, ch) && Content(st'.vol, ch) == Content(st.vol, ch)
  {
    UnlinkSound(st, cb, op);
    UnlinkShape(st.vol, cb, op.dch, op.name);
    OtherChainApart(st, ch, op.dch, op.dch);
    ContentFrame(st.vol, st'.vol, ch);
  }

  lemma UpdateFrame(st: State, cb: nat, op: Op, st': State, ch: seq<nat>)
    requires Step(st, cb, op, st') && op.UpdateOp? && ch in st.fam && ch != op.dch && FatContent.Fits(st.vol, ch)
    ensures ch in st'.fam && FatContent.Fits(st'.vol, ch) && Content(st'.vol, ch) == Content(st.vol, ch)
  {
    UpdateOk(st, cb, op, st');
    OtherChainApart(st, ch, op.dch, op.dch);
    ContentFrame(st.vol, st'.vol, ch);
  }
}
