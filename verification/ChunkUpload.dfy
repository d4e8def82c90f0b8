/**
 * Chunked uploads. A call to UploadFile is three steps: a locked region that
 * opens the temporary file and sets up the bookkeeping, an unlocked copy of the
 * chunk at its offset (itself any number of writes), and a locked region that
 * marks the chunk and renames the file after the last one. Many calls run at
 * once, so the steps of different calls interleave freely.
 */
module ChunkUpload {
  import opened Text

  type Byte = n: nat | n < 256

  type Bytes = seq<Byte>

  // ---- the shared state and the three steps on it -------------------------

  datatype FileInfo = FileInfo(uploaded: seq<bool>, uploadedChunkNum: int)

  /** What the calls for one upload share: its bookkeeping entry, the temporary file and the finished one. */
  datatype Shared = Shared(info: Option<FileInfo>, tmp: Option<Bytes>, final: Option<Bytes>)

  function Opened(sh: Shared, totalChunks: nat): Shared {
    Shared(
      if sh.info.None? then Some(FileInfo(seq(totalChunks, _ => false), 0)) else sh.info,
      if sh.tmp.None? then Some([]) else sh.tmp,
      sh.final)
  }

  /** A write at an offset; a hole before it reads as zeros, and an empty write leaves the file alone. */
  function WriteAt(file: Bytes, offset: nat, data: Bytes): (r: Bytes)
    ensures |r| == if data == [] || offset + |data| <= |file| then |file| else offset + |data|
    ensures forall x :: 0 <= x < |r| ==>
              r[x] == if offset <= x < offset + |data| then data[x - offset] else if x < |file| then file[x] else 0
  {
    if data == [] then file
    else
      var padded := if |file| < offset then file + seq(offset - |file|, _ => 0) else file;
      padded[..offset] + data + (if offset + |data| < |padded| then padded[offset + |data|..] else [])
  }

  function Written(sh: Shared, offset: nat, data: Bytes): Shared
    requires sh.tmp.Some?
  {
    sh.(tmp := Some(WriteAt(sh.tmp.value, offset, data)))
  }

  function MarkedInfo(info: FileInfo, chunk: nat): FileInfo
    requires chunk < |info.uploaded|
  {
    if info.uploaded[chunk] then info
    else FileInfo(info.uploaded[chunk := true], info.uploadedChunkNum + 1)
  }

  predicate Completes(sh: Shared, chunk: nat, totalChunks: nat)
    requires sh.info.Some? && chunk < |sh.info.value.uploaded|
  {
    MarkedInfo(sh.info.value, chunk).uploadedChunkNum == totalChunks
  }

  /** The second locked region: mark the chunk; when the count is full, rename and forget the upload. */
  function Marked(sh: Shared, chunk: nat, totalChunks: nat): Shared
    requires sh.info.Some? && chunk < |sh.info.value.uploaded| && sh.tmp.Some?
  {
    if Completes(sh, chunk, totalChunks) then Shared(None, None, sh.tmp)
    else sh.(info := Some(MarkedInfo(sh.info.value, chunk)))
  }

  /** TestChunk: whether the client may skip chunk number `chunk + 1`. */
  predicate ChunkKnown(sh: Shared, chunk: nat) {
    sh.info.Some? && chunk < |sh.info.value.uploaded| && sh.info.value.uploaded[chunk]
  }

  // ---- the upload and its interleavings -----------------------------------

  /** A file cut into chunks of `chunkSize` bytes, the last one of any length. */
  datatype Plan = Plan(chunkSize: nat, chunks: seq<Bytes>) {
    ghost predicate Valid() {
      chunkSize > 0 && chunks != [] && forall k :: 0 <= k < |chunks| - 1 ==> |chunks[k]| == chunkSize
    }

    function Offset(chunk: nat): nat { chunk * chunkSize }

    function Source(): Bytes { Concat(chunks) }
  }

  function Concat(chunks: seq<Bytes>): Bytes {
    if chunks == [] then [] else chunks[0] + Concat(chunks[1..])
  }

  /** A file, cut every `size` bytes. */
  function Cut(file: Bytes, size: nat): seq<Bytes>
    requires size > 0
    decreases |file|
  {
    if |file| <= size then [file] else [file[..size]] + Cut(file[size..], size)
  }

  /** Every file, the empty one too, and every chunk size make a plan for that file. */
  lemma {:induction false} EveryFileCanBeCut(file: Bytes, size: nat)
    requires size > 0
    ensures Plan(size, Cut(file, size)).Valid() && Plan(size, Cut(file, size)).Source() == file
    decreases |file|
  {
    var chunks := Cut(file, size);
    if |file| <= size {
      assert chunks[1..] == [] && Concat([]) == [];
      assert file + [] == file;
    } else {
      EveryFileCanBeCut(file[size..], size);
      assert chunks[1..] == Cut(file[size..], size);
      assert forall k :: 0 < k < |chunks| ==> chunks[k] == chunks[1..][k - 1];
    }
  }

  /** A call in its copy loop: which chunk it sends and how many bytes it has written. */
  datatype Call = Call(chunk: nat, written: nat)

  /** `renames` and `marked` are history: how often the file was renamed, which chunks were ever marked. */
  datatype State = State(sh: Shared, calls: map<nat, Call>, renames: nat, marked: set<nat>)

  datatype Event =
    | Begin(id: nat, chunk: nat)
    | Copy(id: nat, n: nat)
    | Fail(id: nat)
    | Mark(id: nat)

  /** The temporary file an earlier, abandoned upload left, and the finished file there was. */
  datatype Files = Files(tmp: Option<Bytes>, final: Option<Bytes>)

  function Start(before: Files): State {
    State(Shared(None, before.tmp, before.final), map[], 0, {})
  }

  /** The source, and whatever an old temporary file holds beyond its length: nothing truncates that file. */
  function Outcome(p: Plan, before: Files): Bytes {
    p.Source() + if before.tmp.Some? && |before.tmp.value| > |p.Source()| then before.tmp.value[|p.Source()|..] else []
  }

  /** The event is the next step of some call. */
  predicate Possible(p: Plan, s: State, e: Event) {
    match e
    case Begin(id, chunk) => id !in s.calls && chunk < |p.chunks|
    case Copy(id, n) =>
      id in s.calls && s.sh.tmp.Some? && s.calls[id].chunk < |p.chunks|
      && s.calls[id].written + n <= |p.chunks[s.calls[id].chunk]|
    case Fail(id) => id in s.calls
    case Mark(id) =>
      id in s.calls && s.sh.tmp.Some? && s.sh.info.Some?
      && s.calls[id].chunk < |s.sh.info.value.uploaded| && s.calls[id].chunk < |p.chunks|
      && s.calls[id].written == |p.chunks[s.calls[id].chunk]|
  }

  /** No call starts after the upload is complete, and none is still running when it completes. */
  predicate Orderly(p: Plan, s: State, e: Event)
    requires Possible(p, s, e)
  {
    match e
    case Begin(_, _) => s.renames == 0
    case Mark(id) => Completes(s.sh, s.calls[id].chunk, |p.chunks|) ==> s.calls.Keys == {id}
    case _ => true
  }

  function Step(p: Plan, s: State, e: Event): State
    requires Possible(p, s, e)
  {
    match e
    case Begin(id, chunk) => s.(sh := Opened(s.sh, |p.chunks|), calls := s.calls[id := Call(chunk, 0)])
    case Copy(id, n) =>
      var c := s.calls[id];
      s.(sh := Written(s.sh, p.Offset(c.chunk) + c.written, p.chunks[c.chunk][c.written..c.written + n]),
         calls := s.calls[id := c.(written := c.written + n)])
    case Fail(id) => s.(calls := s.calls - {id})
    case Mark(id) =>
      var chunk := s.calls[id].chunk;
      State(Marked(s.sh, chunk, |p.chunks|), s.calls - {id},
            if Completes(s.sh, chunk, |p.chunks|) then s.renames + 1 else s.renames, s.marked + {chunk})
  }

  /** The state after the events, in that order; none when one of them is no call's next step. */
  function Replay(p: Plan, before: Files, es: seq<Event>): Option<State> {
    if es == [] then Some(Start(before))
    else
      var s := Replay(p, before, es[..|es| - 1]);
      if s.Some? && Possible(p, s.value, es[|es| - 1]) then Some(Step(p, s.value, es[|es| - 1])) else None
  }

  ghost predicate OrderlyRun(p: Plan, before: Files, es: seq<Event>)
    ensures OrderlyRun(p, before, es) ==> Replay(p, before, es).Some?
  {
    es != [] ==>
      var init, e := es[..|es| - 1], es[|es| - 1];
      OrderlyRun(p, before, init) && Possible(p, Replay(p, before, init).value, e)
          && Orderly(p, Replay(p, before, init).value, e)
  }

  // ---- counting and layout ------------------------------------------------

  function CountTrue(flags: seq<bool>): (n: nat)
    ensures n <= |flags|
  {
    if flags == [] then 0 else CountTrue(flags[1..]) + if flags[0] then 1 else 0
  }

  lemma {:induction false} CountTrueSet(flags: seq<bool>, k: nat)
    requires k < |flags| && !flags[k]
    ensures CountTrue(flags[k := true]) == CountTrue(flags) + 1
  {
    if k > 0 {
      CountTrueSet(flags[1..], k - 1);
      assert flags[k := true][1..] == flags[1..][k - 1 := true];
    } else {
      assert flags[0 := true][1..] == flags[1..];
    }
  }

  lemma {:induction false} CountTrueAll(flags: seq<bool>)
    ensures CountTrue(flags) == |flags| <==> forall k :: 0 <= k < |flags| ==> flags[k]
  {
    if flags != [] {
      CountTrueAll(flags[1..]);
      if CountTrue(flags) == |flags| {
        forall k | 0 <= k < |flags| ensures flags[k] {
          assert k > 0 ==> flags[k] == flags[1..][k - 1];
        }
      } else if flags[0] {
        var k :| 0 <= k < |flags[1..]| && !flags[1..][k];
        assert !flags[k + 1];
      }
    }
  }

  lemma {:induction false} CountTrueNone(n: nat)
    ensures CountTrue(seq(n, _ => false)) == 0
  {
    if n > 0 {
      CountTrueNone(n - 1);
      assert seq(n, _ => false)[1..] == seq(n - 1, _ => false);
    }
  }

  /** Chunk k of the source starts k * chunkSize bytes in. */
  lemma {:induction false} Layout(p: Plan, k: nat)
    requires p.Valid() && k < |p.chunks|
    ensures p.Offset(k) + |p.chunks[k]| <= |p.Source()|
    ensures p.Source()[p.Offset(k)..p.Offset(k) + |p.chunks[k]|] == p.chunks[k]
    ensures k == |p.chunks| - 1 ==> p.Offset(k) + |p.chunks[k]| == |p.Source()|
    decreases k
  {
    if k > 0 {
      var rest := Plan(p.chunkSize, p.chunks[1..]);
      assert forall j :: 0 <= j < |rest.chunks| - 1 ==> rest.chunks[j] == p.chunks[j + 1];
      Layout(rest, k - 1);
      assert p.Offset(k) == p.chunkSize + rest.Offset(k - 1);
      SliceAfter(p.chunks[0], rest.Source(), rest.Offset(k - 1), |p.chunks[k]|);
    } else if |p.chunks| == 1 {
      assert Concat(p.chunks[1..]) == [];
    }
  }

  lemma SliceAfter(head: Bytes, tail: Bytes, from: nat, len: nat)
    requires from + len <= |tail|
    ensures (head + tail)[|head| + from..|head| + from + len] == tail[from..from + len]
  {
  }

  // ---- the invariant ------------------------------------------------------

  /** Bytes from..to of the file are those of the source. */
  ghost predicate Holds(file: Bytes, source: Bytes, from: nat, to: nat) {
    from < to ==> to <= |file| && to <= |source| && forall x :: from <= x < to ==> file[x] == source[x]
  }

  ghost predicate OnDisk(p: Plan, file: Bytes, chunk: nat, upto: nat) {
    Holds(file, p.Source(), p.Offset(chunk), p.Offset(chunk) + upto)
  }

  /** Past the source's length the file is as it will be in the end. */
  ghost predicate Beyond(p: Plan, before: Files, file: Bytes) {
    var end := Outcome(p, before);
    && |file| <= |end|
    && (|end| > |p.Source()| ==> |file| == |end|)
    && forall x :: |p.Source()| <= x < |file| ==> file[x] == end[x]
  }

  ghost predicate Uploading(p: Plan, before: Files, s: State) {
    && s.sh.info.Some? && s.sh.tmp.Some?
    && var info, file := s.sh.info.value, s.sh.tmp.value;
    && |info.uploaded| == |p.chunks|
    && info.uploadedChunkNum == CountTrue(info.uploaded) < |p.chunks|
    && Beyond(p, before, file)
    && (forall k :: 0 <= k < |p.chunks| ==> (info.uploaded[k] <==> k in s.marked))
    && (forall k :: 0 <= k < |p.chunks| && info.uploaded[k] ==> OnDisk(p, file, k, |p.chunks[k]|))
    && (forall id :: id in s.calls ==>
          && s.calls[id].chunk < |p.chunks| && s.calls[id].written <= |p.chunks[s.calls[id].chunk]|
          && OnDisk(p, file, s.calls[id].chunk, s.calls[id].written))
  }

  ghost predicate Inv(p: Plan, before: Files, s: State) {
    && (forall k :: k in s.marked ==> k < |p.chunks|)
    && (s.renames == 0 ==>
          && s.sh.final == before.final
          && (s.sh.info.None? ==> s == Start(before))
          && (s.sh.info.Some? ==> Uploading(p, before, s)))
    && (s.renames > 0 ==>
          && s.renames == 1 && s.sh == Shared(None, None, Some(Outcome(p, before))) && s.calls == map[]
          && forall k :: 0 <= k < |p.chunks| ==> k in s.marked)
  }

  lemma WriteKeeps(file: Bytes, source: Bytes, offset: nat, data: Bytes, from: nat, to: nat)
    requires offset + |data| <= |source| && source[offset..offset + |data|] == data
    requires Holds(file, source, from, to)
    ensures Holds(WriteAt(file, offset, data), source, from, to)
  {
    var r := WriteAt(file, offset, data);
    forall x | offset <= x < offset + |data| ensures data[x - offset] == source[x] {
      assert source[offset..offset + |data|][x - offset] == source[x];
    }
  }

  lemma WriteExtends(file: Bytes, source: Bytes, offset: nat, data: Bytes, from: nat)
    requires offset + |data| <= |source| && source[offset..offset + |data|] == data
    requires from <= offset && Holds(file, source, from, offset)
    ensures Holds(WriteAt(file, offset, data), source, from, offset + |data|)
  {
    WriteKeeps(file, source, offset, data, from, offset);
    forall x | offset <= x < offset + |data| ensures data[x - offset] == source[x] {
      assert source[offset..offset + |data|][x - offset] == source[x];
    }
  }

  lemma SourceAndBeyond(p: Plan, before: Files, file: Bytes)
    requires Beyond(p, before, file) && Holds(file, p.Source(), 0, |p.Source()|)
    ensures file == Outcome(p, before)
  {
    hide Concat;
    var end := Outcome(p, before);
    assert forall x :: 0 <= x < |end| ==> file[x] == end[x];
  }

  lemma WriteKeepsBeyond(p: Plan, before: Files, file: Bytes, offset: nat, data: Bytes)
    requires Beyond(p, before, file) && offset + |data| <= |p.Source()|
    ensures Beyond(p, before, WriteAt(file, offset, data))
  {
    hide Concat;
  }

  /** With every chunk on disk, the file is the outcome. */
  lemma {:induction false} AllOnDisk(p: Plan, before: Files, file: Bytes, n: nat)
    requires p.Valid() && n <= |p.chunks| && Beyond(p, before, file)
    requires forall k :: 0 <= k < |p.chunks| ==> OnDisk(p, file, k, |p.chunks[k]|)
    ensures n < |p.chunks| ==> Holds(file, p.Source(), 0, p.Offset(n))
    ensures n == |p.chunks| ==> file == Outcome(p, before)
  {
    if n > 0 {
      AllOnDisk(p, before, file, n - 1);
      Layout(p, n - 1);
      assert OnDisk(p, file, n - 1, |p.chunks[n - 1]|);
      assert p.Offset(n) == p.Offset(n - 1) + p.chunkSize;
      if n == |p.chunks| {
        assert Holds(file, p.Source(), 0, |p.Source()|);
        SourceAndBeyond(p, before, file);
      }
    }
  }

  lemma BeginKeepsInv(p: Plan, before: Files, s: State, e: Event)
    requires p.Valid() && Inv(p, before, s) && Possible(p, s, e) && Orderly(p, s, e) && e.Begin?
    ensures Inv(p, before, Step(p, s, e))
  {
    CountTrueNone(|p.chunks|);
    var t := Step(p, s, e);
    assert OnDisk(p, t.sh.tmp.value, e.chunk, 0);
  }

  /** What a piece of a chunk is in the source. */
  lemma PieceOfSource(p: Plan, k: nat, from: nat, to: nat)
    requires p.Valid() && k < |p.chunks| && from <= to <= |p.chunks[k]|
    ensures p.Offset(k) + to <= |p.Source()|
    ensures p.Source()[p.Offset(k) + from..p.Offset(k) + to] == p.chunks[k][from..to]
  {
    Layout(p, k);
    hide Concat;
    SliceOfSlice(p.Source(), p.Offset(k), |p.chunks[k]|, from, to);
  }

  lemma SliceOfSlice(source: Bytes, offset: nat, len: nat, from: nat, to: nat)
    requires offset + len <= |source| && from <= to <= len
    ensures source[offset..offset + len][from..to] == source[offset + from..offset + to]
  {
    var a, b := source[offset..offset + len][from..to], source[offset + from..offset + to];
    assert |a| == |b| && forall x :: 0 <= x < |a| ==> a[x] == b[x];
    assert a == b;
  }

  /** Writing a piece of the source in its place keeps on disk whatever was, whoever wrote it. */
  lemma PieceKeepsOnDisk(p: Plan, file: Bytes, offset: nat, data: Bytes, k: nat, upto: nat)
    requires offset + |data| <= |p.Source()| && p.Source()[offset..offset + |data|] == data
    ensures OnDisk(p, file, k, upto) ==> OnDisk(p, WriteAt(file, offset, data), k, upto)
  {
    if OnDisk(p, file, k, upto) {
      WriteKeeps(file, p.Source(), offset, data, p.Offset(k), p.Offset(k) + upto);
    }
  }

  /** Writing the next piece of chunk k: everything on disk stays, and the piece comes to it. */
  lemma PieceWritten(p: Plan, before: Files, file: Bytes, k: nat, from: nat, to: nat, file': Bytes)
    requires p.Valid() && k < |p.chunks| && from <= to <= |p.chunks[k]|
    requires Beyond(p, before, file) && OnDisk(p, file, k, from)
    requires file' == WriteAt(file, p.Offset(k) + from, p.chunks[k][from..to])
    ensures Beyond(p, before, file') && OnDisk(p, file', k, to)
    ensures forall j: nat, upto: nat :: OnDisk(p, file, j, upto) ==> OnDisk(p, file', j, upto)
  {
    hide WriteAt, Concat, Outcome, Beyond;
    var offset, data := p.Offset(k) + from, p.chunks[k][from..to];
    PieceOfSource(p, k, from, to);
    assert |data| == to - from;
    forall j: nat, upto: nat ensures OnDisk(p, file, j, upto) ==> OnDisk(p, file', j, upto) {
      PieceKeepsOnDisk(p, file, offset, data, j, upto);
    }
    WriteExtends(file, p.Source(), offset, data, p.Offset(k));
    WriteKeepsBeyond(p, before, file, offset, data);
  }

  lemma CopyKeepsInv(p: Plan, before: Files, s: State, e: Event)
    requires p.Valid() && Inv(p, before, s) && Possible(p, s, e) && e.Copy?
    ensures Inv(p, before, Step(p, s, e))
  {
    hide WriteAt, Concat, CountTrue, Outcome, Beyond, OnDisk;
    assert Uploading(p, before, s);
    var c, t := s.calls[e.id], Step(p, s, e);
    PieceWritten(p, before, s.sh.tmp.value, c.chunk, c.written, c.written + e.n, t.sh.tmp.value);
    CopyKeepsUploading(p, before, s, e.id, t.sh.tmp.value, t);
  }

  lemma CopyKeepsUploading(p: Plan, before: Files, s: State, id: nat, file: Bytes, t: State)
    requires Uploading(p, before, s) && id in s.calls && t.sh == s.sh.(tmp := Some(file)) && t.marked == s.marked
    requires Beyond(p, before, file)
    requires forall k: nat, upto: nat :: OnDisk(p, s.sh.tmp.value, k, upto) ==> OnDisk(p, file, k, upto)
    requires id in t.calls && t.calls == s.calls[id := t.calls[id]] && t.calls[id].chunk == s.calls[id].chunk
    requires t.calls[id].written <= |p.chunks[s.calls[id].chunk]|
               && OnDisk(p, file, t.calls[id].chunk, t.calls[id].written)
    ensures Uploading(p, before, t)
  {
  }

  lemma MarkKeepsInv(p: Plan, before: Files, s: State, e: Event)
    requires p.Valid() && Inv(p, before, s) && Possible(p, s, e) && Orderly(p, s, e) && e.Mark?
    ensures Inv(p, before, Step(p, s, e))
  {
    var chunk, info := s.calls[e.id].chunk, s.sh.info.value;
    var info' := MarkedInfo(info, chunk);
    if !info.uploaded[chunk] {
      CountTrueSet(info.uploaded, chunk);
    }
    CountTrueAll(info'.uploaded);
    if Completes(s.sh, chunk, |p.chunks|) {
      forall k | 0 <= k < |p.chunks|
        ensures OnDisk(p, s.sh.tmp.value, k, |p.chunks[k]|) && (k == chunk || k in s.marked)
      {
        assert info'.uploaded[k];
      }
      AllOnDisk(p, before, s.sh.tmp.value, |p.chunks|);
      assert (s.calls - {e.id}).Keys == {};
    }
  }

  lemma StepKeepsInv(p: Plan, before: Files, s: State, e: Event)
    requires p.Valid() && Inv(p, before, s) && Possible(p, s, e) && Orderly(p, s, e)
    ensures Inv(p, before, Step(p, s, e))
  {
    match e
    case Begin(_, _) => BeginKeepsInv(p, before, s, e);
    case Copy(_, _) => CopyKeepsInv(p, before, s, e);
    case Fail(_) =>
    case Mark(_) => MarkKeepsInv(p, before, s, e);
  }

  lemma {:induction false} RunKeepsInv(p: Plan, before: Files, es: seq<Event>)
    requires p.Valid() && OrderlyRun(p, before, es)
    ensures Inv(p, before, Replay(p, before, es).value)
  {
    if es != [] {
      var init := es[..|es| - 1];
      RunKeepsInv(p, before, init);
      StepKeepsInv(p, before, Replay(p, before, init).value, es[|es| - 1]);
    }
  }

  // ---- main results -------------------------------------------------------

  lemma OutcomeIsSource(p: Plan, before: Files)
    ensures Outcome(p, before) == p.Source() <==> before.tmp.None? || |before.tmp.value| <= |p.Source()|
  {
    hide Concat;
    assert p.Source() + [] == p.Source();
  }

  /**
   * In every orderly interleaving, with retries and failed copies: the counter
   * is the number of marked chunks; the finished file is untouched until every
   * chunk has been marked, and from then on is the outcome, renamed exactly once.
   * That is the source if and only if the temporary file of an abandoned upload,
   * if there was one, was no longer than the source.
   */
  lemma UploadIsExact(p: Plan, before: Files, es: seq<Event>)
    requires p.Valid() && OrderlyRun(p, before, es)
    ensures var s := Replay(p, before, es).value;
            && (s.sh.info.Some? ==> s.sh.info.value.uploadedChunkNum == CountTrue(s.sh.info.value.uploaded))
            && (s.renames == 1 <==> forall k :: 0 <= k < |p.chunks| ==> k in s.marked)
            && s.renames <= 1
            && s.sh.final == (if s.renames == 1 then Some(Outcome(p, before)) else before.final)
            && (s.renames == 1 ==> s.sh.tmp.None? && s.sh.info.None?)
            && (s.renames == 1 ==>
                  (s.sh.final == Some(p.Source()) <==> before.tmp.None? || |before.tmp.value| <= |p.Source()|))
  {
    var s := Replay(p, before, es).value;
    RunKeepsInv(p, before, es);
    OutcomeIsSource(p, before);
    hide Outcome;
    if s.renames == 0 && s.sh.info.Some? {
      CountTrueAll(s.sh.info.value.uploaded);
    } else if s.renames == 0 {
      assert 0 !in s.marked && |p.chunks| > 0;
    }
  }

  /**
   * TestChunk says yes exactly for the chunks marked so far, until completion; and
   * their bytes are all in the temporary file.
   */
  lemma KnownChunksAreOnDisk(p: Plan, before: Files, es: seq<Event>, k: nat)
    requires p.Valid() && OrderlyRun(p, before, es) && k < |p.chunks|
    ensures var s := Replay(p, before, es).value;
            && (ChunkKnown(s.sh, k) <==> s.renames == 0 && k in s.marked)
            && (ChunkKnown(s.sh, k) && p.chunks[k] != [] ==>
                  && s.sh.tmp.Some? && p.Offset(k) + |p.chunks[k]| <= |s.sh.tmp.value|
                  && s.sh.tmp.value[p.Offset(k)..p.Offset(k) + |p.chunks[k]|] == p.chunks[k])
  {
    var s := Replay(p, before, es).value;
    RunKeepsInv(p, before, es);
    Layout(p, k);
    if ChunkKnown(s.sh, k) && p.chunks[k] != [] {
      assert OnDisk(p, s.sh.tmp.value, k, |p.chunks[k]|);
      assert s.sh.tmp.value[p.Offset(k)..p.Offset(k) + |p.chunks[k]|]
          == p.Source()[p.Offset(k)..p.Offset(k) + |p.chunks[k]|];
    }
  }

  /** Chunk k has not been marked, and no running call carries it. */
  ghost predicate Unclaimed(s: State, k: nat) {
    k !in s.marked && forall id :: id in s.calls ==> s.calls[id].chunk != k
  }

  /** No chunk is carried by two running calls, or carried once marked. */
  ghost predicate Disjoint(s: State) {
    && (forall id :: id in s.calls ==> s.calls[id].chunk !in s.marked)
    && (forall id, id' :: id in s.calls && id' in s.calls && id != id' ==> s.calls[id].chunk != s.calls[id'].chunk)
  }

  /** A chunk is sent, and sent again after a failure, only while it is unclaimed. */
  ghost predicate PoliteRun(p: Plan, before: Files, es: seq<Event>)
    ensures PoliteRun(p, before, es) ==> Replay(p, before, es).Some?
  {
    es != [] ==>
      var init, e := es[..|es| - 1], es[|es| - 1];
      && PoliteRun(p, before, init) && Possible(p, Replay(p, before, init).value, e)
      && (e.Begin? ==> Unclaimed(Replay(p, before, init).value, e.chunk))
  }

  lemma CompletesAlone(p: Plan, before: Files, s: State, id: nat)
    requires p.Valid() && Inv(p, before, s) && Disjoint(s) && Possible(p, s, Mark(id))
    requires Completes(s.sh, s.calls[id].chunk, |p.chunks|)
    ensures s.calls.Keys == {id}
  {
    var info, chunk := s.sh.info.value, s.calls[id].chunk;
    CountTrueSet(info.uploaded, chunk);
    var full := info.uploaded[chunk := true];
    CountTrueAll(full);
    forall k | 0 <= k < |p.chunks| && k != chunk ensures k in s.marked {
      assert full[k];
    }
    forall other | other in s.calls ensures other == id {
      assert s.calls[other].chunk == chunk;
    }
  }

  lemma PoliteStepIsOrderly(p: Plan, before: Files, s: State, e: Event)
    requires p.Valid() && Inv(p, before, s) && Disjoint(s) && Possible(p, s, e)
    requires e.Begin? ==> Unclaimed(s, e.chunk)
    ensures Orderly(p, s, e) && Disjoint(Step(p, s, e))
  {
    if e.Mark? && Completes(s.sh, s.calls[e.id].chunk, |p.chunks|) {
      CompletesAlone(p, before, s, e.id);
    }
  }

  /**
   * When a chunk is sent, for the first time or again after a failure, only while
   * it is not marked and no running call carries it, no schedule whatever can
   * start a call after completion or complete with a call still running.
   */
  lemma {:induction false} PoliteIsOrderly(p: Plan, before: Files, es: seq<Event>)
    requires p.Valid() && PoliteRun(p, before, es)
    ensures OrderlyRun(p, before, es) && Disjoint(Replay(p, before, es).value)
  {
    hide Inv, Step, Possible, Orderly;
    if es != [] {
      var init := es[..|es| - 1];
      PoliteIsOrderly(p, before, init);
      RunKeepsInv(p, before, init);
      PoliteStepIsOrderly(p, before, Replay(p, before, init).value, es[|es| - 1]);
    }
  }

  /** Each chunk is sent by at most one call. */
  ghost predicate EachChunkOnce(es: seq<Event>) {
    forall i, j :: 0 <= i < j < |es| && es[i].Begin? && es[j].Begin? ==> es[i].chunk != es[j].chunk
  }

  ghost predicate Begun(es: seq<Event>, k: nat) {
    exists i :: 0 <= i < |es| && es[i].Begin? && es[i].chunk == k
  }

  lemma {:induction false} BegunGrows(es: seq<Event>, e: Event)
    ensures forall k :: Begun(es, k) ==> Begun(es + [e], k)
    ensures e.Begin? ==> Begun(es + [e], e.chunk)
  {
    forall k | Begun(es, k) ensures Begun(es + [e], k) {
      var i :| 0 <= i < |es| && es[i].Begin? && es[i].chunk == k;
      assert (es + [e])[i] == es[i];
    }
    assert (es + [e])[|es|] == e;
  }

  lemma PrefixOnce(init: seq<Event>, e: Event)
    requires EachChunkOnce(init + [e])
    ensures EachChunkOnce(init) && (e.Begin? ==> !Begun(init, e.chunk))
  {
    var es := init + [e];
    assert es[|init|] == e;
    forall i | 0 <= i < |init| ensures init[i] == es[i] {}
  }

  /** So it is when every chunk is sent once: what is claimed has been begun. */
  lemma {:induction false} SendingOnceIsOrderly(p: Plan, before: Files, es: seq<Event>)
    requires p.Valid() && Replay(p, before, es).Some? && EachChunkOnce(es)
    ensures PoliteRun(p, before, es) && OrderlyRun(p, before, es)
    ensures forall k :: !Unclaimed(Replay(p, before, es).value, k) ==> Begun(es, k)
  {
    if es != [] {
      var init, e := es[..|es| - 1], es[|es| - 1];
      assert es == init + [e];
      PrefixOnce(init, e);
      SendingOnceIsOrderly(p, before, init);
      BegunGrows(init, e);
      ClaimsGrow(p, Replay(p, before, init).value, e);
      hide Begun, Unclaimed, Step, Possible, EachChunkOnce, OrderlyRun;
      PoliteIsOrderly(p, before, es);
    } else {
      assert OrderlyRun(p, before, es);
    }
  }

  lemma ClaimsGrow(p: Plan, s: State, e: Event)
    requires Possible(p, s, e)
    ensures forall k :: !Unclaimed(Step(p, s, e), k) ==> !Unclaimed(s, k) || (e.Begin? && e.chunk == k)
  {
    var t := Step(p, s, e);
    forall k | Unclaimed(s, k) && !(e.Begin? && e.chunk == k) ensures Unclaimed(t, k) {
    }
  }

  // ---- in terms of the events ---------------------------------------------

  /** The n-th event is the mark of a call that carries chunk k. */
  ghost predicate Marks(p: Plan, before: Files, es: seq<Event>, n: nat, k: nat) {
    && n < |es| && es[n].Mark? && Replay(p, before, es[..n]).Some?
    && var s := Replay(p, before, es[..n]).value;
       es[n].id in s.calls && s.calls[es[n].id].chunk == k
  }

  ghost predicate HasMark(p: Plan, before: Files, es: seq<Event>, k: nat) {
    exists n: nat :: Marks(p, before, es, n, k)
  }

  lemma MarksLast(p: Plan, before: Files, es: seq<Event>, k: nat)
    requires es != []
    ensures HasMark(p, before, es, k) <==> HasMark(p, before, es[..|es| - 1], k) || Marks(p, before, es, |es| - 1, k)
  {
    hide Replay;
    var init := es[..|es| - 1];
    assert forall n :: 0 <= n < |init| ==> init[..n] == es[..n] && init[n] == es[n];
    if n: nat :| Marks(p, before, es, n, k) {
      assert n < |init| ==> Marks(p, before, init, n, k);
    }
    if n: nat :| Marks(p, before, init, n, k) {
      assert Marks(p, before, es, n, k);
    }
  }

  /** A chunk is marked if and only if a call that carries it has had its second locked region. */
  lemma {:induction false} MarkedIff(p: Plan, before: Files, es: seq<Event>, k: nat)
    requires Replay(p, before, es).Some?
    ensures k in Replay(p, before, es).value.marked <==> HasMark(p, before, es, k)
  {
    if es != [] {
      MarkedIff(p, before, es[..|es| - 1], k);
      MarksLast(p, before, es, k);
      hide HasMark;
    }
  }

  /**
   * In every orderly run, the finished file is what it was until each chunk has
   * had its mark, and the outcome from then on, with the temporary file gone.
   */
  lemma FinishedIff(p: Plan, before: Files, es: seq<Event>)
    requires p.Valid() && OrderlyRun(p, before, es)
    ensures var sh := Replay(p, before, es).value.sh;
            if forall k: nat :: k < |p.chunks| ==> HasMark(p, before, es, k)
            then sh.final == Some(Outcome(p, before)) && sh.tmp.None? && sh.info.None?
            else sh.final == before.final
  {
    UploadIsExact(p, before, es);
    hide HasMark, Replay, OrderlyRun;
    forall k: nat ensures k in Replay(p, before, es).value.marked <==> HasMark(p, before, es, k) {
      MarkedIff(p, before, es, k);
    }
  }

  /** A failed copy ends the call and leaves the rest: the bookkeeping, the files and the other calls. */
  lemma FailureEndsCall(p: Plan, before: Files, es: seq<Event>, id: nat)
    requires Replay(p, before, es).Some? && id in Replay(p, before, es).value.calls
    ensures var s, t := Replay(p, before, es).value, Replay(p, before, es + [Fail(id)]);
            t.Some? && t.value == s.(calls := s.calls - {id})
  {
    assert (es + [Fail(id)])[..|es|] == es;
  }

  // ---- a client that sends one chunk after the other ----------------------

  /** One call from beginning to end. */
  function OneCall(p: Plan, k: nat): seq<Event>
    requires k < |p.chunks|
  {
    [Begin(0, k)] + [Copy(0, |p.chunks[k]|)] + [Mark(0)]
  }

  ghost predicate ChunksOf(p: Plan, order: seq<nat>) {
    forall i :: 0 <= i < |order| ==> order[i] < |p.chunks|
  }

  function InTurn(p: Plan, order: seq<nat>): seq<Event>
    requires ChunksOf(p, order)
  {
    if order == [] then [] else InTurn(p, order[..|order| - 1]) + OneCall(p, order[|order| - 1])
  }

  lemma PoliteExtends(p: Plan, before: Files, es: seq<Event>, e: Event)
    requires PoliteRun(p, before, es) && Possible(p, Replay(p, before, es).value, e)
    requires e.Begin? ==> Unclaimed(Replay(p, before, es).value, e.chunk)
    ensures PoliteRun(p, before, es + [e])
    ensures Replay(p, before, es + [e]) == Some(Step(p, Replay(p, before, es).value, e))
  {
    hide Possible, Step, Unclaimed;
    assert (es + [e])[..|es|] == es;
  }

  lemma CallBegins(p: Plan, before: Files, s: State, k: nat)
    requires p.Valid() && Inv(p, before, s) && k < |p.chunks| && s.calls == map[] && k !in s.marked
    ensures Possible(p, s, Begin(0, k)) && Unclaimed(s, k)
    ensures var t := Step(p, s, Begin(0, k));
            t.calls == map[0 := Call(k, 0)] && t.marked == s.marked && t.sh.tmp.Some?
  {
  }

  lemma CallCopies(p: Plan, s: State, k: nat)
    requires k < |p.chunks| && s.calls == map[0 := Call(k, 0)] && s.sh.tmp.Some?
    ensures Possible(p, s, Copy(0, |p.chunks[k]|))
    ensures var t := Step(p, s, Copy(0, |p.chunks[k]|));
            t.calls == map[0 := Call(k, |p.chunks[k]|)] && t.marked == s.marked
  {
  }

  lemma CallMarks(p: Plan, before: Files, s: State, k: nat)
    requires p.Valid() && Inv(p, before, s) && k < |p.chunks| && s.calls == map[0 := Call(k, |p.chunks[k]|)]
    ensures Possible(p, s, Mark(0))
    ensures var t := Step(p, s, Mark(0)); t.calls == map[] && t.marked == s.marked + {k}
  {
    assert 0 in s.calls;
  }

  lemma CallGoesThrough(p: Plan, before: Files, es: seq<Event>, k: nat)
    requires p.Valid() && k < |p.chunks| && PoliteRun(p, before, es)
    requires Replay(p, before, es).value.calls == map[] && k !in Replay(p, before, es).value.marked
    ensures PoliteRun(p, before, es + OneCall(p, k))
    ensures var s, t := Replay(p, before, es).value, Replay(p, before, es + OneCall(p, k)).value;
            t.calls == map[] && t.marked == s.marked + {k}
  {
    hide Possible, Step, Unclaimed, Inv, Replay, PoliteRun, Disjoint;
    var e, f, g := Begin(0, k), Copy(0, |p.chunks[k]|), Mark(0);
    var first, second := es + [e], es + [e] + [f];
    PoliteIsOrderly(p, before, es);
    RunKeepsInv(p, before, es);
    CallBegins(p, before, Replay(p, before, es).value, k);
    PoliteExtends(p, before, es, e);
    CallCopies(p, Replay(p, before, first).value, k);
    PoliteExtends(p, before, first, f);
    PoliteIsOrderly(p, before, second);
    RunKeepsInv(p, before, second);
    CallMarks(p, before, Replay(p, before, second).value, k);
    PoliteExtends(p, before, second, g);
    assert es + OneCall(p, k) == second + [g];
  }

  lemma {:induction false} InTurnGoesThrough(p: Plan, before: Files, order: seq<nat>)
    requires p.Valid() && ChunksOf(p, order) && forall i, j :: 0 <= i < j < |order| ==> order[i] != order[j]
    ensures PoliteRun(p, before, InTurn(p, order))
    ensures var s := Replay(p, before, InTurn(p, order)).value;
            s.calls == map[] && forall k :: k in s.marked <==> k in order
  {
    if order != [] {
      var init, last := order[..|order| - 1], order[|order| - 1];
      assert order == init + [last];
      InTurnGoesThrough(p, before, init);
      hide PoliteRun, Replay;
      CallGoesThrough(p, before, InTurn(p, init), last);
    }
  }

  /** A client that sends every chunk once, one after the other in any order, gets its file. */
  lemma SendingInTurnFinishes(p: Plan, before: Files, order: seq<nat>)
    requires p.Valid() && ChunksOf(p, order) && forall k: nat :: k < |p.chunks| ==> k in order
    requires forall i, j :: 0 <= i < j < |order| ==> order[i] != order[j]
    ensures Replay(p, before, InTurn(p, order)).Some?
    ensures Replay(p, before, InTurn(p, order)).value.sh == Shared(None, None, Some(Outcome(p, before)))
  {
    InTurnGoesThrough(p, before, order);
    PoliteIsOrderly(p, before, InTurn(p, order));
    UploadIsExact(p, before, InTurn(p, order));
    hide Replay, PoliteRun, OrderlyRun;
  }

  // ---- the service object -------------------------------------------------

  class FileUploadService {
    var uploadStatus: map<string, FileInfo>
    var files: map<string, Bytes>

    constructor (files: map<string, Bytes>)
      ensures uploadStatus == map[] && this.files == files
    {
      uploadStatus, this.files := map[], files;
    }

    /** What concerns the upload `identifier` of the file at `path`. */
    function View(identifier: string, path: string): Shared
      reads this
    {
      Shared(
        if identifier in uploadStatus then Some(uploadStatus[identifier]) else None,
        if path + ".tmp" in files then Some(files[path + ".tmp"]) else None,
        if path in files then Some(files[path]) else None)
    }

    method TestChunk(identifier: string, chunkNumber: nat, ghost path: string) returns (found: bool)
      requires chunkNumber > 0
      requires identifier in uploadStatus ==> chunkNumber <= |uploadStatus[identifier].uploaded|
      ensures found == ChunkKnown(View(identifier, path), chunkNumber - 1)
    {
      if identifier !in uploadStatus {
        return false;
      }
      return uploadStatus[identifier].uploaded[chunkNumber - 1];
    }

    /** The first locked region of UploadFile. */
    method OpenChunk(identifier: string, path: string, totalChunks: nat)
      modifies this
      ensures View(identifier, path) == Opened(old(View(identifier, path)), totalChunks)
      ensures uploadStatus - {identifier} == old(uploadStatus) - {identifier}
      ensures files - {path + ".tmp"} == old(files) - {path + ".tmp"}
    {
      TmpIsOther(path);
      if path + ".tmp" !in files {
        files := files[path + ".tmp" := []];
      }
      if identifier !in uploadStatus {
        uploadStatus := uploadStatus[identifier := FileInfo(seq(totalChunks, _ => false), 0)];
      }
    }

    /** One write of the unlocked copy. */
    method CopyPiece(identifier: string, path: string, offset: nat, data: Bytes)
      requires path + ".tmp" in files
      modifies this`files
      ensures View(identifier, path) == Written(old(View(identifier, path)), offset, data)
      ensures files - {path + ".tmp"} == old(files) - {path + ".tmp"}
    {
      TmpIsOther(path);
      files := files[path + ".tmp" := WriteAt(files[path + ".tmp"], offset, data)];
    }

    /** The second locked region of UploadFile. */
    method FinishChunk(identifier: string, path: string, chunkNumber: nat, totalChunks: nat) returns (complete: bool)
      requires identifier in uploadStatus && path + ".tmp" in files
      requires 0 < chunkNumber <= |uploadStatus[identifier].uploaded|
      modifies this
      ensures complete == old(Completes(View(identifier, path), chunkNumber - 1, totalChunks))
      ensures View(identifier, path) == Marked(old(View(identifier, path)), chunkNumber - 1, totalChunks)
      ensures uploadStatus - {identifier} == old(uploadStatus) - {identifier}
      ensures files - {path, path + ".tmp"} == old(files) - {path, path + ".tmp"}
    {
      TmpIsOther(path);
      var info := uploadStatus[identifier];
      if !info.uploaded[chunkNumber - 1] {
        info := FileInfo(info.uploaded[chunkNumber - 1 := true], info.uploadedChunkNum + 1);
      }
      uploadStatus := uploadStatus[identifier := info];
      complete := info.uploadedChunkNum == totalChunks;
      if complete {
        files := (files - {path + ".tmp"})[path := files[path + ".tmp"]];
        uploadStatus := uploadStatus - {identifier};
      }
    }

    /** The step of one call, on the object: the calls in progress and what they carry are the callers' own. */
    method Perform(p: Plan, calls: map<nat, Call>, e: Event, identifier: string, path: string, ghost s: State)
      requires View(identifier, path) == s.sh && calls == s.calls && Possible(p, s, e)
      modifies this
      ensures View(identifier, path) == Step(p, s, e).sh
    {
      match e
      case Begin(_, _) =>
        OpenChunk(identifier, path, |p.chunks|);
      case Copy(id, n) =>
        var c := calls[id];
        CopyPiece(identifier, path, p.Offset(c.chunk) + c.written, p.chunks[c.chunk][c.written..c.written + n]);
      case Fail(_) =>
      case Mark(id) =>
        var complete := FinishChunk(identifier, path, calls[id].chunk + 1, |p.chunks|);
    }
  }

  lemma TmpIsOther(path: string)
    ensures path + ".tmp" != path
  {
    assert |path + ".tmp"| == |path| + 4;
  }
}
