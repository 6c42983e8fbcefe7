/** The chunk store (crates/np2ptp-store/src/lib.rs) as steps on values: a shared directory, any
    number of handles on it, and what each operation does to both. Every operation is one step;
    the classes in Store implement these steps with the code's loops. */
module StoreSpec {
  import opened Basics
  import opened IndexLog
  import opened RefLog

  const PACK_ROTATE_SIZE: nat := 256 * 1024 * 1024

  /** The files references point into, by path. */
  type Sources = map<Bytes, Bytes>

  /** The directory: pack files by id, the texts of `packs/index` and `refs.tsv`, and the legacy
      one-file-per-chunk objects, which nothing writes any more. */
  datatype Disk = Disk(packs: map<nat, Bytes>, index: Bytes, refs: Bytes, objects: map<Digest, Bytes>)

  /** One open store: what it has read of the index and of the references, and its possibly stale
      idea of the pack being appended to. */
  datatype Handle = Handle(index: Index, pos: nat, refs: map<Digest, RefLoc>, refsPos: nat, currentId: nat,
    currentSize: nat)

  datatype StoreError = Io | Corrupt(hash: Digest) | PackIdsExhausted

  function PackBytes(d: Disk, id: nat): Bytes {
    if id in d.packs then d.packs[id] else []
  }

  // ---- open ----

  ghost predicate HighestPack(packs: map<nat, Bytes>, id: nat) {
    if packs == map[] then id == 0 else id in packs && forall j :: j in packs ==> j <= id
  }

  /** The torn last lines go, then the new handle reads the whole index and every reference, and
      resumes the highest pack, creating pack 0 in an empty directory. */
  ghost predicate Opened(d: Disk, d': Disk, s: Handle) {
    && HighestPack(d.packs, s.currentId)
    && d' == d.(index := Whole(d.index),
                refs := Whole(d.refs),
                packs := d.packs[s.currentId := PackBytes(d, s.currentId)])
    && s.index == InsertAll(Entries(d'.index), map[])
    && s.pos == |d'.index|
    && s.refs == InsertRefs(References(d'.refs), map[])
    && s.refsPos == |d'.refs|
    && s.currentSize == |PackBytes(d, s.currentId)|
  }

  // ---- reading ----

  /** Tail the index from the cursor; only complete lines are taken. */
  function RefreshIndex(d: Disk, s: Handle): Handle {
    if |d.index| <= s.pos then s
    else
      var tail := d.index[s.pos..];
      var n := CompleteLength(tail);
      s.(index := InsertAll(Entries(tail[..n]), s.index), pos := s.pos + n)
  }

  /** The same for the references. */
  function RefreshRefs(d: Disk, s: Handle): Handle {
    if |d.refs| <= s.refsPos then s
    else
      var tail := d.refs[s.refsPos..];
      var n := CompleteLength(tail);
      s.(refs := InsertRefs(References(tail[..n]), s.refs), refsPos := s.refsPos + n)
  }

  predicate Known(d: Disk, s: Handle, x: Digest) {
    x in s.index || x in d.objects || x in s.refs
  }

  function HasStep(d: Disk, s: Handle, x: Digest): (bool, Handle) {
    if Known(d, s, x) then (true, s)
    else var s' := RefreshIndex(d, s); (x in s'.index, s')
  }

  /** Seek, then read exactly that many bytes. Reading none succeeds even behind the end. */
  function ReadRange(file: Bytes, offset: nat, length: nat): Option<Bytes> {
    if length == 0 then Some([])
    else if offset + length <= |file| then Some(file[offset..offset + length])
    else None
  }

  /** Bytes read for a chunk are returned only if they hash to it. */
  function Checked(h: HashFn, read: Option<Bytes>, x: Digest): Result<Option<Bytes>, StoreError> {
    match read
    case None => Err(Io)
    case Some(bytes) => if h(bytes) != x then Err(Corrupt(x)) else Ok(Some(bytes))
  }

  function ReadIndexed(h: HashFn, d: Disk, s: Handle, x: Digest): Result<Option<Bytes>, StoreError> {
    if x !in s.index then Ok(None)
    else
      var loc := s.index[x];
      if loc.pack !in d.packs then Err(Io) else Checked(h, ReadRange(d.packs[loc.pack], loc.offset, loc.length), x)
  }

  function ReadReference(h: HashFn, s: Handle, sources: Sources, x: Digest): Result<Option<Bytes>, StoreError> {
    if x !in s.refs || s.refs[x].path !in sources then Ok(None)
    else
      var loc := s.refs[x];
      Checked(h, ReadRange(sources[loc.path], loc.offset, loc.length), x)
  }

  function GetStep(h: HashFn, d: Disk, s: Handle, sources: Sources,
                   x: Digest): (Result<Option<Bytes>, StoreError>, Handle) {
    var packed := ReadIndexed(h, d, s, x);
    if packed != Ok(None) then (packed, s)
    else if x in d.objects then
      (if h(d.objects[x]) != x then Err(Corrupt(x)) else Ok(Some(d.objects[x])), s)
    else
      var referenced := ReadReference(h, s, sources, x);
      if referenced != Ok(None) then (referenced, s)
      else var s' := RefreshIndex(d, s); (ReadIndexed(h, d, s', x), s')
  }

  // ---- writing ----

  datatype Written = Written(disk: Disk, handle: Handle, result: Result<PackLoc, StoreError>)

  /** Rotate if the pack looks full, then append at the file's real end. The recorded length is a
      32-bit cast; ids that would overflow and files past 64 bits are reported as errors. */
  function WritePack(d: Disk, s: Handle, bytes: Bytes): Written {
    if s.currentSize >= PACK_ROTATE_SIZE && s.currentId >= U32_MAX then Written(d, s, Err(PackIdsExhausted))
    else
      var s1 := if s.currentSize >= PACK_ROTATE_SIZE then s.(currentId := s.currentId + 1, currentSize := 0) else s;
      var id := s1.currentId;
      var end := PackBytes(d, id);
      if |end| + |bytes| > U64_MAX then Written(d.(packs := d.packs[id := end]), s1, Err(Io))
      else
        Written(d.(packs := d.packs[id := end + bytes]), s1.(currentSize := |end| + |bytes|),
                Ok(PackLoc(id, |end|, |bytes| % (U32_MAX + 1))))
  }

  datatype PutOut = PutOut(disk: Disk, handle: Handle, result: Result<(Digest, bool), StoreError>)

  /** The handle as `put` leaves it just before deciding to write. */
  function BeforeWrite(d: Disk, s: Handle, x: Digest): Handle {
    RefreshRefs(d, RefreshIndex(d, HasStep(d, s, x).1))
  }

  predicate Duplicate(d: Disk, s: Handle, x: Digest) {
    HasStep(d, s, x).0 || Known(d, BeforeWrite(d, s, x), x)
  }

  function PutStep(h: HashFn, d: Disk, s: Handle, bytes: Bytes): PutOut {
    var x := h(bytes);
    if HasStep(d, s, x).0 then PutOut(d, HasStep(d, s, x).1, Ok((x, false)))
    else
      var s1 := BeforeWrite(d, s, x);
      if Known(d, s1, x) then PutOut(d, s1, Ok((x, false)))
      else
        var w := WritePack(d, s1, bytes);
        match w.result
        case Err(e) => PutOut(w.disk, w.handle, Err(e))
        case Ok(loc) =>
          var line := FormatEntry(IndexEntry(x, loc));
          PutOut(w.disk.(index := w.disk.index + line),
                 w.handle.(index := w.handle.index[x := loc], pos := w.handle.pos + |line|),
                 Ok((x, true)))
  }

  /** The chunk is in none of the places `put` looks, and the write goes through. */
  ghost predicate Packs(h: HashFn, d: Disk, s: Handle, bytes: Bytes) {
    !Duplicate(d, s, h(bytes)) && WritePack(d, BeforeWrite(d, s, h(bytes)), bytes).result.Ok?
  }

  /** `--no-copy`: ask whether the chunk is there, then record the reference regardless. */
  function ReferStep(d: Disk, s: Handle, r: Reference): (Disk, Handle) {
    var s1 := HasStep(d, s, r.hash).1;
    (d.(refs := d.refs + FormatRef(r)), s1.(refs := s1.refs[r.hash := r.loc]))
  }

  // ---- crashes ----

  /** What a crash inside `put` can leave: some of the chunk's bytes in the pack and nothing in the
      index, or all of them and some of the index line. */
  ghost predicate TornPut(h: HashFn, d: Disk, s: Handle, bytes: Bytes, d': Disk) {
    var x := h(bytes);
    var w := WritePack(d, BeforeWrite(d, s, x), bytes);
    && !Duplicate(d, s, x) && w.result.Ok?
    && ((exists n: nat :: n <= |bytes| && d' == WritePack(d, BeforeWrite(d, s, x), bytes[..n]).disk)
     || (exists n: nat :: n <= |FormatEntry(IndexEntry(x, w.result.value))|
          && d' == w.disk.(index := w.disk.index + FormatEntry(IndexEntry(x, w.result.value))[..n])))
  }

  /** A crash while a reference is written leaves some of its line. */
  ghost predicate TornRefer(d: Disk, r: Reference, d': Disk) {
    exists n: nat :: n <= |FormatRef(r)| && d' == d.(refs := d.refs + FormatRef(r)[..n])
  }

  /** Trimming rewrites a sidecar file from the start, the index first, so a crash inside it leaves
      any beginning of what was to be kept. A file without a torn line is not touched. */
  ghost predicate TornTrim(d: Disk, d': Disk) {
    var n, m := CompleteLength(d.index), CompleteLength(d.refs);
    || (n < |d.index| && exists k: nat :: k <= n && d' == d.(index := d.index[..k]))
    || (m < |d.refs| && exists k: nat :: k <= m && d' == d.(index := d.index[..n], refs := d.refs[..k]))
  }

  // ---- whole systems ----

  /** A directory that does not exist yet, and the same just opened for the first time. */
  const EMPTY_DISK := Disk(map[], [], [], map[])
  const NEW_DISK := Disk(map[0 := []], [], [], map[])
  const NEW_HANDLE := Handle(map[], 0, map[], 0, 0, 0)

  datatype System = System(disk: Disk, handles: map<nat, Handle>)

  datatype Action =
    | Open(id: nat)
    | Close(id: nat)
    | Put(id: nat, bytes: Bytes)
    | Has(id: nat, x: Digest)
    | Get(id: nat, x: Digest, sources: Sources)
    | Refer(id: nat, r: Reference)
    | Crash(id: nat, bytes: Bytes)
    | CrashReferring(id: nat, r: Reference)
    | CrashTrimming

  /** The handles some of which survive the crash of handle `id`, as they were. */
  ghost predicate Survivors(handles: map<nat, Handle>, id: nat, left: map<nat, Handle>) {
    left.Keys <= handles.Keys - {id} && forall j :: j in left ==> left[j] == handles[j]
  }

  /** One step of the system. A crash hits a `put`, a reference, the trim of an `open`, or nothing,
      and takes with it at least the handle at work; any others, in other processes, may survive. */
  ghost predicate Step(h: HashFn, a: System, act: Action, b: System) {
    match act
    case Open(id) =>
      id !in a.handles && exists s :: Opened(a.disk, b.disk, s) && b.handles == a.handles[id := s]
    case Close(id) =>
      b.disk == a.disk && b.handles == a.handles - {id}
    case Put(id, bytes) =>
      && id in a.handles
      && var out := PutStep(h, a.disk, a.handles[id], bytes);
         b == System(out.disk, a.handles[id := out.handle])
    case Has(id, x) =>
      id in a.handles && b == System(a.disk, a.handles[id := HasStep(a.disk, a.handles[id], x).1])
    case Get(id, x, sources) =>
      id in a.handles && b == System(a.disk, a.handles[id := GetStep(h, a.disk, a.handles[id], sources, x).1])
    case Refer(id, r) =>
      && id in a.handles && Referable(r)
      && var (d, s) := ReferStep(a.disk, a.handles[id], r);
         b == System(d, a.handles[id := s])
    case Crash(id, bytes) =>
      && Survivors(a.handles, id, b.handles)
      && (b.disk == a.disk
          || (id in a.handles && TornPut(h, a.disk, a.handles[id], bytes, b.disk)))
    case CrashReferring(id, r) =>
      id in a.handles && Referable(r) && Survivors(a.handles, id, b.handles) && TornRefer(a.disk, r, b.disk)
    case CrashTrimming =>
      (exists id :: Survivors(a.handles, id, b.handles)) && TornTrim(a.disk, b.disk)
  }

  ghost predicate Initial(a: System) {
    a.disk.packs == map[] && a.disk.index == [] && a.handles == map[]
  }

  /** Nothing is appended behind a torn line, and a trim that crashes has no survivors around it. */
  ghost predicate Orderly(h: HashFn, a: System, act: Action, b: System) {
    match act
    case Put(id, bytes) => id in a.handles && Packs(h, a.disk, a.handles[id], bytes) ==> WholeLines(a.disk.index)
    case Refer(_, _) => WholeLines(a.disk.refs)
    case Crash(_, _) => a.disk != b.disk ==> WholeLines(a.disk.index)
    case CrashReferring(_, _) => WholeLines(a.disk.refs)
    case CrashTrimming => b.handles == map[]
    case _ => true
  }

  /** `states[i]` becomes `states[i + 1]` by `acts[i]`. */
  ghost predicate Steps(h: HashFn, states: seq<System>, acts: seq<Action>) {
    && |states| == |acts| + 1
    && Initial(states[0])
    && forall i :: 0 <= i < |acts| ==> Step(h, states[i], acts[i], states[i + 1])
  }

  /** An orderly run. If crashes always take every handle, every run is. */
  ghost predicate Run(h: HashFn, states: seq<System>, acts: seq<Action>) {
    && Steps(h, states, acts)
    && forall i :: 0 <= i < |acts| ==> Orderly(h, states[i], acts[i], states[i + 1])
  }
}
