/**
Runs of operations on one open file, seen as operations on a byte sequence with a cursor.
Of the volume only two numbers are left in the specification: the clusters that the file
holds and those that are free.
*/
module FatFileRun {
  import opened Optional
  import opened Sectors
  import opened FatTable
  import opened FatChain
  import opened FatVolume
  import opened FatLinkMap
  import opened FatFile
  import opened FileLayout

  datatype Op = DoRead(n: nat) | DoWrite(d: seq<Byte>) | DoSeek(ofs: nat) | DoTruncate | DoSync

  /** What the caller sees of an operation: the result, the bytes read, the number of bytes written. */
  datatype Outcome = Outcome(res: FResult, data: seq<Byte>, n: nat)

  /** How the file was opened, and the size of a cluster: cs sectors of ss bytes. */
  datatype Mode = Mode(canRead: bool, canWrite: bool, ss: nat, cs: nat)

  /**
  All of an abstract file but its bytes: map_ is the number of clusters that a link map lists,
  and leads says whether these begin with the file's.
  */
  datatype Shape = Shape(size: nat, pos: nat, err: FResult, clusters: nat, free: nat, map_: Option<nat>, leads: bool)

  datatype AbstractFile = AbstractFile(content: seq<Byte>, shape: Shape)

  // ---- What an operation does --------------------------------------------------------------

  /** Bytes that k clusters hold. */
  function Room(m: Mode, k: nat): nat { k * m.cs * m.ss }

  function Taken(m: Mode, n: nat): nat
    requires m.ss > 0 && m.cs > 0
  {
    ClustersFor(m.ss, m.cs, n)
  }

  /** How far a write can get: to the last cluster to be had, which a link map limits to the chain. */
  function Limit(m: Mode, s: Shape): nat {
    Room(m, if s.map_.None? then s.clusters + s.free else if s.clusters == 0 then Min(s.free, 1) else s.clusters)
  }

  /** The number of bytes a write of n bytes transfers. */
  function Count(m: Mode, s: Shape, n: nat): nat
    requires s.pos <= Limit(m, s) && s.pos <= DWORD_MAX
  {
    Min(n, Min(DWORD_MAX - s.pos, Limit(m, s) - s.pos))
  }

  /** The file reaches position p, taking the clusters that this needs. */
  function Reach(m: Mode, s: Shape, p: nat): Shape
    requires m.ss > 0 && m.cs > 0
  {
    var k := Max(s.clusters, Taken(m, p));
    if k <= s.clusters + s.free then s.(size := Max(s.size, p), pos := p, clusters := k, free := s.clusters + s.free - k) else s
  }

  function Sought(m: Mode, s: Shape, ofs: nat): Shape
    requires m.ss > 0 && m.cs > 0
  {
    if s.map_.Some? then
      var p := Min(ofs, s.size);
      s.(pos := p, err := if p == 0 || s.map_.value > 0 then FR_OK else FR_INT_ERR)
    else if !m.canWrite || ofs <= s.size then s.(pos := Min(ofs, s.size))
    else Reach(m, s, Min(ofs, Room(m, s.clusters + s.free)))
  }

  function Cut(m: Mode, s: Shape): Shape
    requires m.ss > 0 && m.cs > 0
  {
    var k := Taken(m, s.pos);
    if s.pos < s.size && k <= s.clusters
    then s.(size := s.pos, clusters := k, free := s.free + s.clusters - k, leads := s.leads || k == 0) else s
  }

  /** The sizes asked for are 32-bit values, and a position is no request for a link map. */
  predicate Sized(s: Shape, op: Op) {
    match op
    case DoWrite(d) => |d| <= DWORD_MAX
    case DoSeek(ofs) => ofs <= DWORD_MAX && (s.map_.Some? ==> ofs != CREATE_LINKMAP)
    case _ => true
  }

  /** The operation follows an outdated link map to a cluster that is not the file's. */
  predicate Strays(m: Mode, s: Shape, op: Op) {
    && s.err == FR_OK && s.map_.Some?
    && match op
       case DoWrite(d) =>
         var h := if s.clusters == 0 then 1 else s.clusters;
         m.canWrite && h < s.map_.value && Room(m, h) < Min(s.pos + |d|, DWORD_MAX) && s.clusters + s.free > 0
       case DoSeek(ofs) => !s.leads && Min(ofs, s.size) > 0
       case _ => false
  }

  /** A shape that an open file can have. */
  predicate Proper(m: Mode, s: Shape) {
    && m.ss > 0 && m.cs > 0
    && (s.err == FR_OK ==> s.pos <= s.size)
    && s.size <= DWORD_MAX && s.size <= Room(m, s.clusters)
    && (s.leads || (s.clusters == 1 && s.map_.Some? && s.map_.value > 0))
  }

  lemma RoomMono(m: Mode, j: nat, k: nat)
    requires j <= k
    ensures Room(m, j) <= Room(m, k)
  {
    MulMono(j, k, m.cs);
    MulMono(j * m.cs, k * m.cs, m.ss);
  }

  lemma WithinLimit(m: Mode, s: Shape)
    requires Proper(m, s) && s.err == FR_OK
    ensures s.pos <= Limit(m, s)
  {
    hide Room;
    RoomMono(m, s.clusters, s.clusters + s.free);
    RoomMono(m, 0, Min(s.free, 1));
  }

  /** A file that was cut to nothing gets a first cluster, which may or may not be the one the map begins with. */
  predicate Restarts(s: Shape, t: Shape) { s.clusters == 0 < t.clusters && s.map_.Some? && s.map_.value > 0 }

  /** The shape after an operation; lucky says whether a restarted file gets the cluster it had. */
  function Next(m: Mode, s: Shape, op: Op, lucky: bool): Shape
    requires Proper(m, s)
  {
    if s.err != FR_OK || op.DoSync? then s
    else
      match op
      case DoRead(n) => if m.canRead then s.(pos := Min(s.pos + n, s.size)) else s
      case DoWrite(d) =>
        WithinLimit(m, s);
        if m.canWrite then
          var t := Reach(m, s, s.pos + Count(m, s, |d|));
          if Restarts(s, t) then t.(leads := lucky) else t
        else s
      case DoSeek(ofs) => Sought(m, s, ofs)
      case DoTruncate => if m.canWrite then Cut(m, s) else s
      case DoSync => s
  }

  /**
  One operation on an abstract file. All is determined but the bytes that seeking past the
  end skips, and the first cluster of a restarted file.
  */
  ghost predicate Step(m: Mode, s: AbstractFile, op: Op, out: Outcome, t: AbstractFile)
    requires Proper(m, s.shape)
  {
    var x := s.shape;
    && t.shape == Next(m, x, op, t.shape.leads)
    && |t.content| == t.shape.size && |s.content| == x.size
    && if op.DoSync? then out == Outcome(FR_OK, [], 0) && t == s
       else if x.err != FR_OK then out == Outcome(x.err, [], 0) && t.content == s.content
       else
         match op
         case DoRead(n) =>
           && t.content == s.content
           && out == if m.canRead then Outcome(FR_OK, s.content[x.pos..t.shape.pos], 0) else Outcome(FR_DENIED, [], 0)
         case DoWrite(d) =>
           WithinLimit(m, x);
           var n := Count(m, x, |d|);
           if m.canWrite then t.content == Splice(s.content, x.pos, d[..n]) && out == Outcome(FR_OK, [], n)
           else t.content == s.content && out == Outcome(FR_DENIED, [], 0)
         case DoSeek(ofs) => s.content <= t.content && out == Outcome(t.shape.err, [], 0)
         case DoTruncate =>
           && t.content == (if m.canWrite then s.content[..x.pos] else s.content)
           && out == Outcome(if m.canWrite then FR_OK else FR_DENIED, [], 0)
         case DoSync => true
  }

  /** Whether a change is noted, and the bytes that the directory entry stands for. */
  datatype Note = Note(changed: bool, saved: seq<Byte>)

  /** What is noted after an operation that takes s to t. */
  function NoteAfter(m: Mode, s: AbstractFile, op: Op, t: AbstractFile, n: Note): Note {
    if op.DoSync? then (if n.changed then Note(false, s.content) else n)
    else if s.shape.err != FR_OK then n
    else
      match op
      case DoRead(_) => n
      case DoWrite(_) => n.(changed := n.changed || m.canWrite)
      case DoSeek(_) => n.(changed := n.changed || t.shape.size != s.shape.size)
      case DoTruncate => n.(changed := n.changed || (m.canWrite && s.shape.pos < s.shape.size))
      case DoSync => n
  }

  // ---- The file as an abstract file --------------------------------------------------------

  ghost function ShapeOf(f: File): Shape
    reads f, f.fs`fat
  {
    Shape(f.objsize, f.fptr, f.err, |f.chain|, |Free(f.fs.fat)|, if f.cltbl == [] then None else Some(|f.mapped|), f.MapLeads())
  }

  ghost function Abstraction(f: File): AbstractFile
    requires f.objsize <= |f.bytes|
    reads f, f.fs`fat
  {
    AbstractFile(f.Content(), ShapeOf(f))
  }

  ghost function NoteOf(f: File): Note
    reads f
  {
    Note(f.modified, f.noted)
  }

  function ModeOf(f: File): Mode { Mode(f.canRead, f.canWrite, f.fs.ss, f.fs.csize) }

  /** An open file on a volume whose FAT is sound. */
  ghost predicate Ready(f: File)
    reads f, f.buf, f.fs, f.fs.win
  {
    f.Valid() && f.MapOk() && f.Sound() && f.Flagged() && f.Recorded()
  }

  lemma ReadyShape(f: File)
    requires Ready(f)
    ensures Proper(ModeOf(f), ShapeOf(f)) && f.objsize <= |f.bytes| && |f.bytes| == Room(ModeOf(f), |f.chain|)
    ensures f.err == FR_OK ==> Taken(ModeOf(f), f.fptr) <= |f.chain|
    ensures f.MapLeads() <==> (f.cltbl != [] ==> f.chain <= f.mapped || f.mapped == [])
    ensures f.MapLeads() || |f.chain| == 1
  {
    hide File.Valid, Maps, NoRepeat;
    f.Sizes();
    f.Room();
    f.HoldsPointer();
  }

  /** A full volume has no free cluster, when the count can be trusted. */
  lemma FullIsNone(f: File)
    requires f.Full() && f.Sound() && |f.fs.fat| >= 3
    ensures |Free(f.fs.fat)| == 0
  {
    NoneCounted(f.fs.fat);
  }

  /** Growth conserves free and held clusters. */
  lemma Conserved(f: seq<nat>, g: seq<nat>, c: seq<nat>, d: seq<nat>)
    requires Grew(f, g, c, d)
    ensures |Free(g)| + |d| == |Free(f)| + |c| && |c| <= |d| && (|c| == |d| ==> c == d)
  {}

  /** What f_write is found to have done is what Next says. */
  lemma WriteShape(m: Mode, s: Shape, n: nat, bw: nat, clusters: nat, free: nat)
    requires Proper(m, s) && s.err == FR_OK && bw <= n
    requires clusters + free == s.clusters + s.free && clusters >= s.clusters
    requires s.pos + bw <= Room(m, clusters) && s.pos + bw <= DWORD_MAX
    requires Taken(m, s.pos + bw) <= clusters && (clusters == s.clusters || clusters == Taken(m, s.pos + bw))
    requires bw < Min(n, DWORD_MAX - s.pos) ==> s.pos + bw == Room(m, clusters) && (free == 0 || (s.map_.Some? && clusters > 0))
    requires s.map_.Some? ==> clusters == s.clusters || clusters == 1
    ensures s.pos <= Limit(m, s) && bw == Count(m, s, n)
    ensures Reach(m, s, s.pos + bw) ==
              s.(size := Max(s.size, s.pos + bw), pos := s.pos + bw, clusters := clusters, free := free)
  {
    hide Room, Taken;
    WithinLimit(m, s);
    RoomMono(m, clusters, s.clusters + s.free);
    if s.map_.Some? && s.clusters == 0 {
      RoomMono(m, clusters, Min(s.free, 1));
    }
  }

  /** e is another chain of the FAT, and b are its bytes, as the file's owner would see them. */
  ghost predicate Other(f: File, e: seq<nat>, b: seq<Byte>)
    reads f, f.fs`fat
  {
    IsChain(f.fs.fat, e) && Disjoint(e, f.chain) && Stores(f.img, f.fs.ss, f.fs.base, f.fs.csize, e, b)
  }

  lemma OtherGrew(f: File, fat: seq<nat>, c: seq<nat>, v: seq<Sector>, e: seq<nat>, b: seq<Byte>)
    requires f.Valid() && f.OthersAs(v) && Grew(fat, f.fs.fat, c, f.chain)
    requires IsChain(fat, e) && Disjoint(e, c) && Stores(v, f.fs.ss, f.fs.base, f.fs.csize, e, b)
    ensures Other(f, e, b)
  {
    hide File.Valid, File.OthersAs, Grew, Stores;
    GrewOther(fat, f.fs.fat, c, f.chain, e);
    f.OthersStored(v, e, b);
  }

  lemma OtherCut(f: File, fat: seq<nat>, c: seq<nat>, v: seq<Sector>, e: seq<nat>, b: seq<Byte>)
    requires f.Valid() && f.DataAs(v) && Grew(f.fs.fat, fat, f.chain, c)
    requires IsChain(fat, e) && Disjoint(e, c) && Stores(v, f.fs.ss, f.fs.base, f.fs.csize, e, b)
    ensures Other(f, e, b)
  {
    hide File.Valid, File.DataAs, Grew, Stores;
    CutOther(f.fs.fat, fat, f.chain, c, e);
    GrewMembers(f.fs.fat, fat, f.chain, c);
    f.DataOthers(v);
    f.OthersStored(v, e, b);
  }

  /** An operation that is refused, or that an earlier error stops, does nothing. */
  lemma StepRefused(m: Mode, s: AbstractFile, op: Op)
    requires Proper(m, s.shape) && |s.content| == s.shape.size
    ensures s.shape.err != FR_OK && !op.DoSync? ==> Step(m, s, op, Outcome(s.shape.err, [], 0), s)
    ensures s.shape.err == FR_OK && (if op.DoRead? then !m.canRead else !m.canWrite && (op.DoWrite? || op.DoTruncate?)) ==>
              Step(m, s, op, Outcome(FR_DENIED, [], 0), s)
  {
    hide Room, Taken, Count, Limit;
  }

  lemma StepRead(m: Mode, s: AbstractFile, n: nat, t: AbstractFile)
    requires Proper(m, s.shape) && |s.content| == s.shape.size && s.shape.err == FR_OK && m.canRead
    requires t == s.(shape := s.shape.(pos := Min(s.shape.pos + n, s.shape.size)))
    ensures s.shape.pos <= t.shape.pos <= |s.content|
    ensures Step(m, s, DoRead(n), Outcome(FR_OK, s.content[s.shape.pos..t.shape.pos], 0), t)
  {
    hide Room, Taken;
  }

  lemma StepWrite(m: Mode, s: AbstractFile, d: seq<Byte>, bw: nat, t: AbstractFile)
    requires Proper(m, s.shape) && |s.content| == s.shape.size && s.shape.err == FR_OK && m.canWrite
    requires s.shape.pos <= Limit(m, s.shape) && bw == Count(m, s.shape, |d|) && bw <= |d|
    requires var u := Reach(m, s.shape, s.shape.pos + bw); t.shape == if Restarts(s.shape, u) then u.(leads := t.shape.leads) else u
    requires |t.content| == t.shape.size && t.content == Splice(s.content, s.shape.pos, d[..bw])
    ensures Step(m, s, DoWrite(d), Outcome(FR_OK, [], bw), t)
  {
    hide Room, Taken, Limit, Count, Splice, Reach;
  }

  method PerformRead(f: File, n: nat, ghost e: seq<nat>, ghost b: seq<Byte>) returns (out: Outcome)
    requires Ready(f)
    modifies f, f.buf, f.fs, f.fs.win
    ensures Ready(f) && f.cltbl == old(f.cltbl) && f.objsize <= |f.bytes| && old(f.objsize) <= |old(f.bytes)|
    ensures Proper(ModeOf(f), old(ShapeOf(f))) && Step(ModeOf(f), old(Abstraction(f)), DoRead(n), out, Abstraction(f))
    ensures NoteOf(f) == NoteAfter(ModeOf(f), old(Abstraction(f)), DoRead(n), Abstraction(f), old(NoteOf(f)))
    ensures old(Other(f, e, b)) ==> Other(f, e, b)
  {
    hide File.Valid, File.Linked, File.Chained, File.Stored, File.DataAs, Stores, IsChain, ChainOrNone, File.MapOk, Corrupt, Counted,
         Proper, Free, Grew, Step;
    ReadyShape(f);
    f.Sizes();
    ghost var s, fat, v, other := Abstraction(f), f.fs.fat, f.img, Other(f, e, b);
    StepRefused(ModeOf(f), s, DoRead(n));
    var res, got := f.Read(n);
    f.Sizes();
    if other {
      GrewNot(fat, f.chain);
      OtherCut(f, fat, f.chain, v, e, b);
    }
    if res == FR_OK {
      StepRead(ModeOf(f), s, n, Abstraction(f));
    }
    out := Outcome(res, got, 0);
  }

  method PerformWrite(f: File, d: seq<Byte>, ghost e: seq<nat>, ghost b: seq<Byte>) returns (out: Outcome)
    requires Ready(f) && Sized(ShapeOf(f), DoWrite(d))
    modifies f, f.buf, f.fs, f.fs.win
    ensures Ready(f) <==> !old(Strays(ModeOf(f), ShapeOf(f), DoWrite(d)))
    ensures f.cltbl == old(f.cltbl) && old(f.objsize) <= |old(f.bytes)| && Proper(ModeOf(f), old(ShapeOf(f)))
    ensures Ready(f) ==> f.objsize <= |f.bytes| && Step(ModeOf(f), old(Abstraction(f)), DoWrite(d), out, Abstraction(f))
    ensures Ready(f) ==> NoteOf(f) == NoteAfter(ModeOf(f), old(Abstraction(f)), DoWrite(d), Abstraction(f), old(NoteOf(f)))
    ensures Ready(f) && old(Other(f, e, b)) ==> Other(f, e, b)
  {
    hide File.Valid, File.Linked, File.Chained, File.Stored, File.DataAs, File.OthersAs, Stores, IsChain, ChainOrNone,
         File.MapOk, File.MapLeads, File.Full, File.Astray, File.Leaves, Corrupt, Counted, Proper, Room, NoFree, Strays,
         Free, Grew, ClustersFor, Splice, Step, Limit, Count, Reach;
    ReadyShape(f);
    f.Sizes();
    StraysIs(f, d);
    ghost var s, c, fat, v, other := Abstraction(f), f.chain, f.fs.fat, f.img, Other(f, e, b);
    StepRefused(ModeOf(f), s, DoWrite(d));
    var res, n := f.Write(d);
    out := Outcome(res, [], n);
    Conserved(fat, f.fs.fat, c, f.chain);
    if f.Valid() {
      f.Sizes();
      if other {
        OtherGrew(f, fat, c, v, e, b);
      }
      LeadsOn(f, c, s.shape.leads);
      if s.shape.err == FR_OK && f.canWrite {
        Wrote(f, s, c, fat, d, n);
      }
    }
  }

  /** What File.Write promises makes a step. */
  lemma Wrote(f: File, s: AbstractFile, c: seq<nat>, fat: seq<nat>, d: seq<Byte>, n: nat)
    requires Ready(f) && f.err == FR_OK && f.canWrite && f.objsize <= |f.bytes| && n <= |d|
    requires Proper(ModeOf(f), s.shape) && |s.content| == s.shape.size && s.shape.err == FR_OK
    requires s.shape == Shape(|s.content|, s.shape.pos, FR_OK, |c|, |Free(fat)|, ShapeOf(f).map_, s.shape.leads)
    requires s.shape.leads == (f.cltbl != [] ==> c <= f.mapped || f.mapped == [])
    requires Grew(fat, f.fs.fat, c, f.chain) && f.fptr == s.shape.pos + n && s.shape.pos <= |s.content|
    requires f.Content() == Splice(s.content, s.shape.pos, d[..n])
    requires n < Min(|d|, DWORD_MAX - s.shape.pos) ==> f.fptr == |f.bytes| && (f.Full() || (f.cltbl != [] && f.chain != []))
    requires f.fs.ss > 0 && f.fs.csize > 0 && (f.chain == c || |f.chain| == ClustersFor(f.fs.ss, f.fs.csize, f.fptr))
    requires f.cltbl != [] ==> f.chain == c || (c == [] && |f.chain| == 1)
    ensures Step(ModeOf(f), s, DoWrite(d), Outcome(FR_OK, [], n), Abstraction(f))
  {
    hide File.Valid, File.MapOk, File.MapLeads, File.Full, File.Sound, Proper, Room, Free, Grew, ClustersFor, Splice, Step, Limit, Count,
         Reach;
    f.Sizes();
    Conserved(fat, f.fs.fat, c, f.chain);
    LeadsOn(f, c, s.shape.leads);
    ReadyShape(f);
    if f.Full() {
      FullIsNone(f);
    }
    SpliceLength(s.content, s.shape.pos, d[..n]);
    WriteShape(ModeOf(f), s.shape, |d|, n, |f.chain|, |Free(f.fs.fat)|);
    StepWrite(ModeOf(f), s, d, n, Abstraction(f));
  }

  lemma SpliceLength(c: seq<Byte>, p: nat, d: seq<Byte>)
    requires p <= |c|
    ensures |Splice(c, p, d)| == Max(|c|, p + |d|)
  {}

  /** A write goes astray by the link map as far as the shape tells. */
  lemma StraysIs(f: File, d: seq<Byte>)
    requires Ready(f)
    ensures Strays(ModeOf(f), ShapeOf(f), DoWrite(d)) <==>
              f.Writable() && f.Leaves(|d|) && (f.chain != [] || (d != [] && !NoFree(f.fs.fat)))
  {
    hide File.Valid, File.MapOk, File.MapLeads;
    f.Sizes();
    f.NoBytes();
    FreeNone(f.fs.fat);
  }

  lemma FreeNone(f: seq<nat>)
    ensures NoFree(f) <==> |Free(f)| == 0
  {
    if !NoFree(f) {
      var x :| 2 <= x < |f| && f[x] == 0;
      assert x in Free(f);
    } else {
      assert Free(f) == {};
    }
  }

  /** The link map after a write. */
  lemma LeadsOn(f: File, c: seq<nat>, leads: bool)
    requires leads == (f.cltbl != [] ==> c <= f.mapped || f.mapped == [])
    requires f.cltbl != [] ==> f.chain == c || (c == [] && |f.chain| == 1)
    ensures f.chain == c ==> f.MapLeads() == leads
    ensures f.cltbl == [] || f.mapped == [] ==> f.MapLeads() && leads
  {}

  /** What f_lseek past the end is found to have done is what Next says. */
  lemma SeekShape(m: Mode, s: Shape, ofs: nat, p: nat, clusters: nat, free: nat)
    requires Proper(m, s) && s.err == FR_OK && s.map_.None? && m.canWrite && s.size < ofs
    requires clusters + free == s.clusters + s.free && clusters >= s.clusters
    requires s.size <= p <= ofs && p <= Room(m, clusters) && (p < ofs ==> p == Room(m, clusters) && free == 0)
    requires Taken(m, p) <= clusters && (clusters == s.clusters || clusters == Taken(m, p))
    ensures Sought(m, s, ofs) == s.(size := p, pos := p, clusters := clusters, free := free)
  {
    hide Room, Taken;
    RoomMono(m, clusters, s.clusters + s.free);
  }

  lemma StepSeek(m: Mode, s: AbstractFile, ofs: nat, t: AbstractFile)
    requires Proper(m, s.shape) && |s.content| == s.shape.size && s.shape.err == FR_OK
    requires t.shape == Sought(m, s.shape, ofs) && |t.content| == t.shape.size && s.content <= t.content
    ensures Step(m, s, DoSeek(ofs), Outcome(t.shape.err, [], 0), t)
  {
    hide Room, Taken, Sought;
  }

  lemma StepTruncate(m: Mode, s: AbstractFile, t: AbstractFile)
    requires Proper(m, s.shape) && |s.content| == s.shape.size && s.shape.err == FR_OK && m.canWrite
    requires t.shape == Cut(m, s.shape) && t.content == s.content[..s.shape.pos] && |t.content| == t.shape.size
    ensures Step(m, s, DoTruncate, Outcome(FR_OK, [], 0), t)
  {
    hide Room, Taken, Cut;
  }

  method PerformSeek(f: File, ofs: nat, ghost e: seq<nat>, ghost b: seq<Byte>) returns (out: Outcome)
    requires Ready(f) && Sized(ShapeOf(f), DoSeek(ofs))
    modifies f, f.buf, f.fs, f.fs.win
    ensures Ready(f) <==> !old(Strays(ModeOf(f), ShapeOf(f), DoSeek(ofs)))
    ensures f.cltbl == old(f.cltbl) && old(f.objsize) <= |old(f.bytes)| && Proper(ModeOf(f), old(ShapeOf(f)))
    ensures Ready(f) ==> f.objsize <= |f.bytes| && Step(ModeOf(f), old(Abstraction(f)), DoSeek(ofs), out, Abstraction(f))
    ensures Ready(f) ==> NoteOf(f) == NoteAfter(ModeOf(f), old(Abstraction(f)), DoSeek(ofs), Abstraction(f), old(NoteOf(f)))
    ensures Ready(f) && old(Other(f, e, b)) ==> Other(f, e, b)
  {
    hide File.Valid, File.Shape, File.Linked, File.Chained, File.Stored, File.DataAs, File.OthersAs, Stores, IsChain, ChainOrNone,
         File.MapOk, File.Full, Corrupt, Counted, Proper, Room,
         Free, Grew, ClustersFor, Step;
    ReadyShape(f);
    f.Sizes();
    ghost var s, c, bytes, fat, v, other := Abstraction(f), f.chain, f.bytes, f.fs.fat, f.img, Other(f, e, b);
    StepRefused(ModeOf(f), s, DoSeek(ofs));
    var res := f.Seek(ofs);
    out := Outcome(res, [], 0);
    if f.Valid() {
      f.Sizes();
      if other {
        f.DataOthers(v);
        OtherGrew(f, fat, c, v, e, b);
      }
      Conserved(fat, f.fs.fat, c, f.chain);
      ReadyShape(f);
      assert f.bytes[..|s.content|] == bytes[..|s.content|] == s.content;
      if s.shape.err == FR_OK {
        if f.cltbl == [] && f.canWrite && s.shape.size < ofs {
          if f.Full() {
            FullIsNone(f);
          }
          SeekShape(ModeOf(f), s.shape, ofs, f.fptr, |f.chain|, |Free(f.fs.fat)|);
        }
        StepSeek(ModeOf(f), s, ofs, Abstraction(f));
      }
    }
  }

  /** The link map after a truncation. */
  lemma LeadsShorter(f: File, c: seq<nat>, leads: bool)
    requires leads == (f.cltbl != [] ==> c <= f.mapped || f.mapped == [])
    requires f.chain <= c && (!leads ==> |c| == 1)
    ensures f.MapLeads() == (leads || f.chain == [])
  {}

  method PerformTruncate(f: File, ghost e: seq<nat>, ghost b: seq<Byte>) returns (out: Outcome)
    requires Ready(f)
    modifies f, f.buf, f.fs, f.fs.win
    ensures Ready(f) && f.cltbl == old(f.cltbl) && f.objsize <= |f.bytes| && old(f.objsize) <= |old(f.bytes)|
    ensures Proper(ModeOf(f), old(ShapeOf(f))) && Step(ModeOf(f), old(Abstraction(f)), DoTruncate, out, Abstraction(f))
    ensures NoteOf(f) == NoteAfter(ModeOf(f), old(Abstraction(f)), DoTruncate, Abstraction(f), old(NoteOf(f)))
    ensures old(Other(f, e, b)) ==> Other(f, e, b)
  {
    hide File.Valid, File.Linked, File.Chained, File.Stored, File.DataAs, File.OthersAs, Stores, IsChain, ChainOrNone,
         File.MapOk, File.Full, Corrupt, Counted, Proper, Room,
         Free, Grew, ClustersFor, Step;
    ReadyShape(f);
    f.Sizes();
    ghost var s, c, fat, v, other := Abstraction(f), f.chain, f.fs.fat, f.img, Other(f, e, b);
    StepRefused(ModeOf(f), s, DoTruncate);
    var res := f.Truncate();
    f.Sizes();
    if other {
      OtherCut(f, fat, c, v, e, b);
    }
    Conserved(f.fs.fat, fat, f.chain, c);
    LeadsShorter(f, c, s.shape.leads);
    out := Outcome(res, [], 0);
    if res == FR_OK {
      StepTruncate(ModeOf(f), s, Abstraction(f));
    }
  }

  method PerformSync(f: File, ghost e: seq<nat>, ghost b: seq<Byte>) returns (out: Outcome)
    requires Ready(f)
    modifies f, f.buf, f.fs, f.fs.win
    ensures Ready(f) && f.cltbl == old(f.cltbl) && f.objsize <= |f.bytes| && old(f.objsize) <= |old(f.bytes)|
    ensures Proper(ModeOf(f), old(ShapeOf(f))) && Step(ModeOf(f), old(Abstraction(f)), DoSync, out, Abstraction(f))
    ensures NoteOf(f) == NoteAfter(ModeOf(f), old(Abstraction(f)), DoSync, Abstraction(f), old(NoteOf(f)))
    ensures old(Other(f, e, b)) ==> Other(f, e, b)
  {
    hide File.Valid, File.Linked, File.Chained, File.Stored, Stores, IsChain, File.MapOk, File.OnVolume, Corrupt, Counted, Proper, Free;
    ReadyShape(f);
    f.Sizes();
    f.Sync();
    f.Sizes();
    out := Outcome(FR_OK, [], 0);
  }

  /**
  Each operation on the file is a step of the abstract file, unless it goes astray by an
  outdated link map, and this can be told before.
  */
  method Perform(f: File, op: Op, ghost e: seq<nat>, ghost b: seq<Byte>) returns (out: Outcome)
    requires Ready(f) && Sized(ShapeOf(f), op)
    modifies f, f.buf, f.fs, f.fs.win
    ensures Ready(f) <==> !old(Strays(ModeOf(f), ShapeOf(f), op))
    ensures f.cltbl == old(f.cltbl) && old(f.objsize) <= |old(f.bytes)| && Proper(ModeOf(f), old(ShapeOf(f)))
    ensures Ready(f) ==> f.objsize <= |f.bytes| && Step(ModeOf(f), old(Abstraction(f)), op, out, Abstraction(f))
    ensures Ready(f) ==> NoteOf(f) == NoteAfter(ModeOf(f), old(Abstraction(f)), op, Abstraction(f), old(NoteOf(f)))
    ensures Ready(f) && old(Other(f, e, b)) ==> Other(f, e, b)
  {
    hide Ready, Step, ShapeOf, Abstraction, Proper, Other;
    match op {
      case DoRead(n) => out := PerformRead(f, n, e, b);
      case DoWrite(d) => out := PerformWrite(f, d, e, b);
      case DoSeek(ofs) => out := PerformSeek(f, ofs, e, b);
      case DoTruncate => out := PerformTruncate(f, e, b);
      case DoSync => out := PerformSync(f, e, b);
    }
  }

  // ---- Runs --------------------------------------------------------------------------------

  /** No operation of the sequence goes astray, whichever first cluster a restarted file gets. */
  ghost predicate NoneStrays(m: Mode, s: Shape, ops: seq<Op>)
    decreases |ops|
  {
    ops != [] && Proper(m, s) ==>
      && Sized(s, ops[0]) && !Strays(m, s, ops[0])
      && NoneStrays(m, Next(m, s, ops[0], true), ops[1..]) && NoneStrays(m, Next(m, s, ops[0], false), ops[1..])
  }

  /** Without a link map there is no such operation, as long as the sizes asked for are 32-bit values. */
  lemma {:induction false} NoneWithoutMap(m: Mode, s: Shape, ops: seq<Op>)
    requires s.map_.None? && forall i :: 0 <= i < |ops| ==> Sized(s, ops[i])
    ensures NoneStrays(m, s, ops)
    decreases |ops|
  {
    if ops != [] && Proper(m, s) {
      forall lucky: bool
        ensures NoneStrays(m, Next(m, s, ops[0], lucky), ops[1..])
      {
        var t := Next(m, s, ops[0], lucky);
        forall i | 0 <= i < |ops[1..]|
          ensures Sized(t, ops[1..][i])
        {
          assert Sized(s, ops[i + 1]);
        }
        NoneWithoutMap(m, t, ops[1..]);
      }
    }
  }

  /** The states and outcomes of a sequence of operations. */
  ghost predicate IsRun(m: Mode, states: seq<AbstractFile>, ops: seq<Op>, outs: seq<Outcome>) {
    && |states| == |ops| + 1 && |outs| == |ops| && (forall i :: 0 <= i < |states| ==> Proper(m, states[i].shape))
    && forall i :: 0 <= i < |ops| ==> Step(m, states[i], ops[i], outs[i], states[i + 1])
  }

  /** What is noted in the course of a run. */
  ghost predicate IsNoted(m: Mode, states: seq<AbstractFile>, ops: seq<Op>, notes: seq<Note>) {
    && |states| == |notes| == |ops| + 1
    && forall i :: 0 <= i < |ops| ==> notes[i + 1] == NoteAfter(m, states[i], ops[i], states[i + 1], notes[i])
  }

  /** Where no change is noted the directory entry stands for the file as it is. */
  ghost predicate Kept(s: AbstractFile, n: Note) { s.shape.err == FR_OK && !n.changed ==> n.saved == s.content }

  lemma StepKept(m: Mode, s: AbstractFile, op: Op, out: Outcome, t: AbstractFile, n: Note)
    requires Proper(m, s.shape) && Step(m, s, op, out, t) && Kept(s, n)
    ensures Kept(t, NoteAfter(m, s, op, t, n))
  {
    hide Room, Taken, Splice, Count, Limit;
    if op.DoSeek? {
      assert |s.content| == |t.content| ==> t.content[..|s.content|] == t.content;
    } else if op.DoTruncate? {
      assert s.content[..|s.content|] == s.content;
    }
  }

  /** No run changes a file without noting it: short of an error, what f_sync does not write is on the volume. */
  lemma {:induction false} RunKept(m: Mode, states: seq<AbstractFile>, ops: seq<Op>, outs: seq<Outcome>, notes: seq<Note>, i: nat)
    requires IsRun(m, states, ops, outs) && IsNoted(m, states, ops, notes) && Kept(states[0], notes[0]) && i < |states|
    ensures Kept(states[i], notes[i])
    decreases i
  {
    hide Step, Proper, Kept, NoteAfter;
    if i > 0 {
      RunKept(m, states, ops, outs, notes, i - 1);
      StepKept(m, states[i - 1], ops[i - 1], outs[i - 1], states[i], notes[i - 1]);
    }
  }

  lemma StepShape(m: Mode, s: AbstractFile, op: Op, out: Outcome, t: AbstractFile)
    requires Proper(m, s.shape) && Step(m, s, op, out, t)
    ensures t.shape == Next(m, s.shape, op, true) || t.shape == Next(m, s.shape, op, false)
  {}

  /**
  Every sequence of operations on the file is a run of the abstract file, and leaves every
  other chain e of the FAT and its bytes b as they were.
  */
  method Run(f: File, ops: seq<Op>, ghost e: seq<nat>, ghost b: seq<Byte>)
    returns (outs: seq<Outcome>, ghost states: seq<AbstractFile>, ghost notes: seq<Note>)
    requires Ready(f) && NoneStrays(ModeOf(f), ShapeOf(f), ops)
    modifies f, f.buf, f.fs, f.fs.win
    ensures Ready(f) && f.objsize <= |f.bytes| && old(f.objsize) <= |old(f.bytes)|
    ensures IsRun(ModeOf(f), states, ops, outs) && states[0] == old(Abstraction(f)) && states[|ops|] == Abstraction(f)
    ensures IsNoted(ModeOf(f), states, ops, notes) && notes[0] == old(NoteOf(f)) && notes[|ops|] == NoteOf(f)
    ensures forall i :: 0 <= i < |states| ==> Kept(states[i], notes[i])
    ensures old(Other(f, e, b)) ==> Other(f, e, b)
  {
    hide Ready, Step, Proper, Next, Other, Sized, Strays, NoteAfter, Kept;
    ReadyShape(f);
    ReadyKept(f);
    outs, states, notes := [], [Abstraction(f)], [NoteOf(f)];
    while |outs| < |ops|
      invariant |outs| <= |ops| && |states| == |outs| + 1
      invariant Ready(f) && f.objsize <= |f.bytes| && NoneStrays(ModeOf(f), ShapeOf(f), ops[|outs|..])
      invariant old(Other(f, e, b)) ==> Other(f, e, b)
      invariant states[0] == old(Abstraction(f)) && states[|outs|] == Abstraction(f)
      invariant forall i :: 0 <= i < |states| ==> Proper(ModeOf(f), states[i].shape)
      invariant forall i :: 0 <= i < |outs| ==> Step(ModeOf(f), states[i], ops[i], outs[i], states[i + 1])
      invariant |notes| == |states| && notes[0] == old(NoteOf(f)) && notes[|outs|] == NoteOf(f)
      invariant forall i :: 0 <= i < |outs| ==> notes[i + 1] == NoteAfter(ModeOf(f), states[i], ops[i], states[i + 1], notes[i])
    {
      ReadyShape(f);
      ghost var rest, s := ops[|outs|..], Abstraction(f);
      assert rest[0] == ops[|outs|] && rest[1..] == ops[|outs| + 1..];
      var out := Perform(f, ops[|outs|], e, b);
      StepShape(ModeOf(f), s, rest[0], out, Abstraction(f));
      ReadyShape(f);
      outs, states, notes := outs + [out], states + [Abstraction(f)], notes + [NoteOf(f)];
    }
    forall i | 0 <= i < |states|
      ensures Kept(states[i], notes[i])
    {
      RunKept(ModeOf(f), states, ops, outs, notes, i);
    }
  }

  lemma ReadyKept(f: File)
    requires Ready(f) && f.objsize <= |f.bytes|
    ensures Kept(Abstraction(f), NoteOf(f))
  {
    hide File.Valid, File.MapOk, File.Sound;
  }

  /**
  After f_sync a file that is opened by its directory entry has the same bytes, whatever the
  run before it has done short of an error.
  */
  method SyncAndReopen(f: File) returns (g: File)
    requires Ready(f) && f.err == FR_OK
    modifies f, f.buf, f.fs, f.fs.win
    ensures fresh(g) && g.Valid() && g.fs == f.fs && g.fptr == 0
    ensures old(f.objsize) <= |old(f.bytes)| && g.objsize <= |g.bytes| && g.Content() == old(f.Content())
  {
    hide File.Linked, File.Stored, Corrupt, Counted, Free;
    f.Sizes();
    f.Sync();
    f.Sizes();
    f.StartIs();
    f.Room();
    g := new File.Open(f.fs, f.entryClust, f.entrySize, f.canRead, f.canWrite, f.chain);
  }

  // ---- With room enough --------------------------------------------------------------------

  /** A file as its bytes and a position, and nothing else. */
  datatype Plain = Plain(content: seq<Byte>, pos: nat)

  function PlainOf(s: AbstractFile): Plain { Plain(s.content, s.shape.pos) }

  /** All goes well: every byte is written, every position is reached. */
  ghost predicate PlainStep(s: Plain, op: Op, out: Outcome, t: Plain) {
    && out.res == FR_OK && s.pos <= |s.content|
    && match op
       case DoRead(n) => out.data == s.content[s.pos..Min(s.pos + n, |s.content|)] && t == Plain(s.content, s.pos + |out.data|)
       case DoWrite(d) => out.n == |d| && t == Plain(Splice(s.content, s.pos, d), s.pos + |d|)
       case DoSeek(ofs) => t.pos == ofs && s.content <= t.content && |t.content| == Max(|s.content|, ofs)
       case DoTruncate => t == Plain(s.content[..s.pos], s.pos)
       case DoSync => t == s
  }

  /** The greatest length that a file of this size and position has in a sequence of operations. */
  function Peak(size: nat, pos: nat, ops: seq<Op>): (p: nat)
    ensures p >= size
    decreases |ops|
  {
    if ops == [] then size
    else
      match ops[0]
      case DoRead(n) => Peak(size, Min(pos + n, size), ops[1..])
      case DoWrite(d) => Peak(Max(size, pos + |d|), pos + |d|, ops[1..])
      case DoSeek(ofs) => Peak(Max(size, ofs), ofs, ops[1..])
      case DoTruncate => Max(size, Peak(pos, pos, ops[1..]))
      case DoSync => Peak(size, pos, ops[1..])
  }

  /** The file is fine, and open for all operations; there is no link map. */
  predicate Sane(m: Mode, s: Shape) { s.err == FR_OK && s.map_.None? && m.canRead && m.canWrite }

  /** There is room for the greatest length that the operations ask for. */
  ghost predicate Ample(m: Mode, s: Shape, ops: seq<Op>) {
    var p := Peak(s.size, s.pos, ops);
    p <= DWORD_MAX && p <= Room(m, s.clusters + s.free)
  }

  /** The clusters needed for bytes for which there is room are there. */
  lemma Reachable(m: Mode, s: Shape, p: nat)
    requires Proper(m, s) && p <= Room(m, s.clusters + s.free)
    ensures Taken(m, p) <= s.clusters + s.free
  {
    ClustersHold(m.ss, m.cs, p, s.clusters + s.free);
  }

  /** One operation with room enough, and room enough for those that follow. */
  lemma AmpleStep(m: Mode, s: AbstractFile, ops: seq<Op>, out: Outcome, t: AbstractFile)
    requires ops != [] && Proper(m, s.shape) && Sane(m, s.shape) && Ample(m, s.shape, ops) && Step(m, s, ops[0], out, t)
    ensures PlainStep(PlainOf(s), ops[0], out, PlainOf(t)) && Ample(m, t.shape, ops[1..])
  {
    hide Room, Taken, Splice;
    var x, rest := s.shape, ops[1..];
    match ops[0]
    case DoRead(n) =>
    case DoWrite(d) =>
      Reachable(m, x, x.pos + |d|);
      assert d[..|d|] == d;
    case DoSeek(ofs) =>
      Reachable(m, x, ofs);
    case DoTruncate =>
    case DoSync =>
  }

  /** An operation keeps the file fine, and the clusters it holds or could get. */
  lemma SaneStep(m: Mode, s: AbstractFile, op: Op, out: Outcome, t: AbstractFile)
    requires Proper(m, s.shape) && Sane(m, s.shape) && Step(m, s, op, out, t)
    ensures Sane(m, t.shape) && t.shape.clusters + t.shape.free == s.shape.clusters + s.shape.free
    ensures |s.content| == s.shape.size && |t.content| == t.shape.size
  {
    hide Room, Taken, Splice, Count;
  }

  lemma Rest(m: Mode, states: seq<AbstractFile>, ops: seq<Op>, outs: seq<Outcome>)
    requires IsRun(m, states, ops, outs) && ops != []
    ensures IsRun(m, states[1..], ops[1..], outs[1..])
  {
    hide Step, Proper;
  }

  /** On a volume with room enough every run is a run of a plain sequence of bytes with a position. */
  lemma {:induction false} PlainRun(m: Mode, states: seq<AbstractFile>, ops: seq<Op>, outs: seq<Outcome>, i: nat)
    requires IsRun(m, states, ops, outs) && Sane(m, states[0].shape) && Ample(m, states[0].shape, ops) && i < |ops|
    ensures PlainStep(PlainOf(states[i]), ops[i], outs[i], PlainOf(states[i + 1]))
    decreases i
  {
    hide Step, PlainStep, Ample, Proper, Sane;
    AmpleStep(m, states[0], ops, outs[0], states[1]);
    if i > 0 {
      SaneStep(m, states[0], ops[0], outs[0], states[1]);
      Rest(m, states, ops, outs);
      PlainRun(m, states[1..], ops[1..], outs[1..], i - 1);
    }
  }

  ghost predicate AllPlain(states: seq<AbstractFile>, ops: seq<Op>, outs: seq<Outcome>)
    requires |states| == |ops| + 1 && |outs| == |ops|
  {
    forall i :: 0 <= i < |ops| ==> PlainStep(PlainOf(states[i]), ops[i], outs[i], PlainOf(states[i + 1]))
  }

  /** And not without it: the room is exactly what is needed. */
  lemma {:induction false} PlainNeedsRoom(m: Mode, states: seq<AbstractFile>, ops: seq<Op>, outs: seq<Outcome>)
    requires IsRun(m, states, ops, outs) && Sane(m, states[0].shape) && AllPlain(states, ops, outs)
    requires |states[0].content| == states[0].shape.size
    ensures Ample(m, states[0].shape, ops)
    decreases |ops|
  {
    hide Step, Proper, Room;
    var x := states[0].shape;
    ProperRoom(m, x);
    if ops != [] {
      var y := states[1].shape;
      SaneStep(m, states[0], ops[0], outs[0], states[1]);
      Rest(m, states, ops, outs);
      assert AllPlain(states[1..], ops[1..], outs[1..]) by {
        hide PlainStep;
        forall i | 0 <= i < |ops[1..]|
          ensures PlainStep(PlainOf(states[1..][i]), ops[1..][i], outs[1..][i], PlainOf(states[1..][i + 1]))
        {
          assert PlainStep(PlainOf(states[i + 1]), ops[i + 1], outs[i + 1], PlainOf(states[i + 2]));
        }
      }
      PlainNeedsRoom(m, states[1..], ops[1..], outs[1..]);
      assert PlainStep(PlainOf(states[0]), ops[0], outs[0], PlainOf(states[1]));
    }
  }

  lemma ProperRoom(m: Mode, s: Shape)
    requires Proper(m, s)
    ensures s.size <= DWORD_MAX && s.size <= Room(m, s.clusters + s.free)
  {
    RoomMono(m, s.clusters, s.clusters + s.free);
  }

  /** Every operation does all that it is asked to if and only if there is room for the greatest length. */
  lemma PlainIff(m: Mode, states: seq<AbstractFile>, ops: seq<Op>, outs: seq<Outcome>)
    requires IsRun(m, states, ops, outs) && Sane(m, states[0].shape) && |states[0].content| == states[0].shape.size
    ensures AllPlain(states, ops, outs) <==> Ample(m, states[0].shape, ops)
  {
    hide Step, PlainStep, Ample, Proper, Sane;
    if AllPlain(states, ops, outs) {
      PlainNeedsRoom(m, states, ops, outs);
    } else if Ample(m, states[0].shape, ops) {
      forall i | 0 <= i < |ops|
        ensures PlainStep(PlainOf(states[i]), ops[i], outs[i], PlainOf(states[i + 1]))
      {
        PlainRun(m, states, ops, outs, i);
      }
    }
  }
}
