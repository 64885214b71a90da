/** The sending side of the upload protocol, and what both sides together achieve. */
module UploadClient {
  import opened Wrappers
  import opened Text
  import opened Upload

  datatype SourceFile = SourceFile(path: string, ftype: FileType, data: Bytes)

  function Chunk(src: SourceFile, data: Bytes): Msg {
    SchemaFile(src.path, src.ftype, data, None)
  }

  function ChunkMsgs(src: SourceFile, b: Bytes, size: nat): seq<Msg>
    requires size > 0
    decreases |b|
  {
    if b == [] then []
    else
      var n := if size < |b| then size else |b|;
      [Chunk(src, b[..n])] + ChunkMsgs(src, b[n..], size)
  }

  /** Only file contents of at most `size` bytes are sent, and only the last chunk may be shorter. */
  lemma {:induction false} ChunkSizes(src: SourceFile, b: Bytes, size: nat, i: nat)
    requires size > 0 && i < |ChunkMsgs(src, b, size)|
    ensures var m := ChunkMsgs(src, b, size)[i];
            && m.SchemaFile? && m.name == src.path && m.ftype == src.ftype && m.hash == None
            && 0 < |m.contents| <= size && (i + 1 < |ChunkMsgs(src, b, size)| ==> |m.contents| == size)
    decreases |b|
  {
    var n := if size < |b| then size else |b|;
    if i > 0 {
      ChunkSizes(src, b[n..], size, i - 1);
      assert ChunkMsgs(src, b, size)[i] == ChunkMsgs(src, b[n..], size)[i - 1];
    }
  }

  /** The last message for a file: the digest of the chosen method, labelled MD5. */
  function HashMsg(env: Env, algo: HashMethod, src: SourceFile): Msg {
    SchemaFile(src.path, src.ftype, [], Some(Hash(MD5, env.digest(algo, src.data))))
  }

  function FileMsgs(env: Env, algo: HashMethod, src: SourceFile, size: nat): seq<Msg>
    requires size > 0
  {
    ChunkMsgs(src, src.data, size) + [HashMsg(env, algo, src)]
  }

  function ClientStream(env: Env, algo: HashMethod, srcs: seq<SourceFile>, size: nat): seq<Msg>
    requires size > 0
  {
    if srcs == [] then []
    else ClientStream(env, algo, srcs[..|srcs| - 1], size) + FileMsgs(env, algo, srcs[|srcs| - 1], size)
  }

  lemma {:induction false} NoChunks(src: SourceFile, size: nat)
    requires size > 0
    ensures ChunkMsgs(src, [], size) == []
  {
  }

  lemma {:induction false} ChunkNext(src: SourceFile, b: Bytes, start: nat, end: nat, size: nat)
    requires size > 0 && start < |b| && end == if start + size < |b| then start + size else |b|
    ensures ChunkMsgs(src, b[start..], size) == [Chunk(src, b[start..end])] + ChunkMsgs(src, b[end..], size)
  {
    assert b[start..][..end - start] == b[start..end] && b[start..][end - start..] == b[end..];
  }

  /** `uploadFileFn` for one file. */
  method UploadFile(env: Env, algo: HashMethod, src: SourceFile, uploadSize: nat) returns (sent: seq<Msg>)
    requires uploadSize > 0
    ensures sent == FileMsgs(env, algo, src, uploadSize)
  {
    hide ChunkMsgs;
    var b := src.data;
    sent := [];
    assert b[0..] == b;
    NoChunks(src, uploadSize);
    var start := 0;
    while start < |b|
      invariant 0 <= start
      invariant sent + ChunkMsgs(src, if start < |b| then b[start..] else [], uploadSize) == ChunkMsgs(src, b, uploadSize)
    {
      var end := start + uploadSize;
      if end > |b| { end := |b|; }
      var chunk := b[start..end];
      ChunkNext(src, b, start, end, uploadSize);
      assert end == |b| ==> b[end..] == [];
      Assoc(sent, [Chunk(src, chunk)], ChunkMsgs(src, b[end..], uploadSize));
      sent := sent + [SchemaFile(src.path, src.ftype, chunk, None)];
      start := start + uploadSize;
    }
    assert sent + [] == sent;
    sent := sent + [SchemaFile(src.path, src.ftype, [], Some(Hash(MD5, env.digest(algo, b))))];
  }

  /** The whole sender, without the create and finalize messages. */
  method SendFiles(env: Env, algo: HashMethod, srcs: seq<SourceFile>, uploadSize: nat) returns (sent: seq<Msg>)
    requires uploadSize > 0
    ensures sent == ClientStream(env, algo, srcs, uploadSize)
  {
    sent := [];
    for i := 0 to |srcs|
      invariant sent == ClientStream(env, algo, srcs[..i], uploadSize)
    {
      assert srcs[..i + 1][..i] == srcs[..i];
      var ms := UploadFile(env, algo, srcs[i], uploadSize);
      sent := sent + ms;
    }
    assert srcs[..|srcs|] == srcs;
  }

  // ----- the server under the client's messages

  lemma {:induction false} RunOne(env: Env, s: Session, m: Msg)
    requires s.open <= s.disk.Keys && s.status == Receiving
    ensures Run(env, s, [m]) == Settled(Step(env, s, m))
  {
    assert [m][..0] == [];
  }

  lemma {:induction false} RunNothing(env: Env, s: Session)
    requires s.open <= s.disk.Keys
    ensures Run(env, s, []) == Settled(s)
  {
  }

  lemma {:induction false} ChunkArrives(env: Env, s: Session, src: SourceFile, data: Bytes)
    requires s.open <= s.disk.Keys && s.status == Receiving && src.path != ""
    ensures var f := env.join(src.path);
            Run(env, s, [Chunk(src, data)]) == Written(Created(s, f), f, data)
  {
    RunOne(env, s, Chunk(src, data));
  }

  /** However the data is cut, the open file ends up holding all of it. */
  lemma {:induction false} ChunksArrive(env: Env, s: Session, src: SourceFile, b: Bytes, size: nat)
    requires size > 0 && s.open <= s.disk.Keys && s.status == Receiving && src.path != ""
    ensures b != [] ==> var f := env.join(src.path);
                        Run(env, s, ChunkMsgs(src, b, size)) == Written(Created(s, f), f, b)
    decreases |b|
  {
    hide Run;
    if b != [] {
      var f := env.join(src.path);
      var n := if size < |b| then size else |b|;
      var m, rest := Chunk(src, b[..n]), b[n..];
      RunAppend(env, s, [m], ChunkMsgs(src, rest, size));
      ChunkArrives(env, s, src, b[..n]);
      var w := Written(Created(s, f), f, b[..n]);
      if rest == [] {
        assert b[..n] == b;
        RunNothing(env, w);
      } else {
        ChunksArrive(env, w, src, rest, size);
        WrittenTwice(w, f, Created(s, f), b[..n], rest);
        assert b[..n] + rest == b;
      }
    }
  }

  lemma {:induction false} WrittenTwice(w: Session, f: string, c: Session, a: Bytes, b: Bytes)
    requires f in c.disk && f in c.open && w == Written(c, f, a)
    ensures Created(w, f) == w && Written(w, f, b) == Written(c, f, a + b)
  {
    assert c.disk[f] + a + b == c.disk[f] + (a + b);
    assert Written(w, f, b).disk == Written(c, f, a + b).disk;
  }

  /** One file's messages store it and list it, or the run is refused. */
  lemma {:induction false} FileArrives(env: Env, s: Session, algo: HashMethod, src: SourceFile, size: nat)
    requires size > 0 && s.open == {} && s.status == Receiving && src.path != ""
    ensures var f := env.join(src.path);
            var r := Run(env, s, FileMsgs(env, algo, src, size));
            if env.digest(algo, src.data) == env.digest(MD5, src.data)
            then r == Listed(s.(disk := s.disk[f := src.data]), f, src.ftype)
            else r.status == WrongHash
  {
    var f := env.join(src.path);
    var chunks, m := ChunkMsgs(src, src.data, size), HashMsg(env, algo, src);
    RunAppend(env, s, chunks, [m]);
    ChunksArrive(env, s, src, src.data, size);
    var w := Run(env, s, chunks);
    RunOne(env, w, m);
    HashArrives(env, s, w, algo, src);
  }

  lemma {:induction false} HashArrives(env: Env, s: Session, w: Session, algo: HashMethod, src: SourceFile)
    requires s.open == {} && s.status == Receiving && src.path != ""
    requires var f := env.join(src.path);
             w == if src.data == [] then s else Written(Created(s, f), f, src.data)
    ensures w.open <= w.disk.Keys
    ensures var f := env.join(src.path);
            var r := Step(env, w, HashMsg(env, algo, src));
            if env.digest(algo, src.data) == env.digest(MD5, src.data)
            then r == Listed(s.(disk := s.disk[f := src.data]), f, src.ftype)
            else r.status == WrongHash
  {
    var f := env.join(src.path);
    var c := Written(Created(w, f), f, []);
    assert c.disk == s.disk[f := src.data] by {
      assert c.disk[f] == src.data;
    }
    assert c.open - {f} == {};
  }

  // ----- end to end

  ghost predicate Agrees(env: Env, algo: HashMethod, srcs: seq<SourceFile>) {
    forall i | 0 <= i < |srcs| :: env.digest(algo, srcs[i].data) == env.digest(MD5, srcs[i].data)
  }

  ghost predicate DistinctTargets(env: Env, srcs: seq<SourceFile>) {
    && (forall i | 0 <= i < |srcs| :: srcs[i].path != "")
    && (forall i, j | 0 <= i < j < |srcs| :: env.join(srcs[i].path) != env.join(srcs[j].path))
  }

  function Targets(env: Env, srcs: seq<SourceFile>, ft: FileType): seq<string> {
    if srcs == [] then []
    else
      var src := srcs[|srcs| - 1];
      Targets(env, srcs[..|srcs| - 1], ft) + if src.ftype == ft then [env.join(src.path)] else []
  }

  ghost function TargetSet(env: Env, srcs: seq<SourceFile>): set<string> {
    set i | 0 <= i < |srcs| :: env.join(srcs[i].path)
  }

  /** Every file is stored byte for byte, nothing else is, and the lists follow the files. */
  ghost predicate Delivered(env: Env, srcs: seq<SourceFile>, s: Session) {
    && s.disk.Keys == TargetSet(env, srcs)
    && Stored(env, srcs, s.disk)
    && s.files == Targets(env, srcs, MODULE)
    && s.directories == Targets(env, srcs, DEPENDENCY)
  }

  ghost predicate Stored(env: Env, srcs: seq<SourceFile>, disk: map<string, Bytes>) {
    forall i | 0 <= i < |srcs| :: env.join(srcs[i].path) in disk && disk[env.join(srcs[i].path)] == srcs[i].data
  }

  lemma {:induction false} TargetSetNext(env: Env, init: seq<SourceFile>, src: SourceFile)
    ensures TargetSet(env, init + [src]) == TargetSet(env, init) + {env.join(src.path)}
  {
    var all := init + [src];
    assert all[|init|] == src;
    forall i | 0 <= i < |init| ensures env.join(init[i].path) in TargetSet(env, all) { assert all[i] == init[i]; }
  }

  lemma {:induction false} StoredNext(env: Env, init: seq<SourceFile>, src: SourceFile, disk: map<string, Bytes>)
    requires DistinctTargets(env, init + [src]) && Stored(env, init, disk)
    ensures Stored(env, init + [src], disk[env.join(src.path) := src.data])
  {
    var all := init + [src];
    forall i | 0 <= i < |init| ensures env.join(init[i].path) != env.join(src.path) {
      assert all[i] == init[i] && all[|init|] == src;
    }
  }

  lemma {:induction false} DeliveredNext(env: Env, init: seq<SourceFile>, src: SourceFile, s: Session)
    requires DistinctTargets(env, init + [src]) && Delivered(env, init, s)
    ensures var f := env.join(src.path);
            Delivered(env, init + [src], Listed(s.(disk := s.disk[f := src.data]), f, src.ftype))
  {
    hide DistinctTargets, Stored, TargetSet;
    TargetSetNext(env, init, src);
    StoredNext(env, init, src, s.disk);
    SnocParts(init, src);
    assert s.files + [] == s.files && s.directories + [] == s.directories;
  }

  lemma {:induction false} NothingArrives(env: Env, algo: HashMethod, srcs: seq<SourceFile>, size: nat)
    requires size > 0 && srcs == []
    ensures Run(env, FRESH, ClientStream(env, algo, srcs, size)) == FRESH
    ensures Delivered(env, srcs, FRESH) && Agrees(env, algo, srcs)
  {
  }

  lemma {:induction false} AllArrive(env: Env, algo: HashMethod, srcs: seq<SourceFile>, size: nat)
    requires size > 0 && DistinctTargets(env, srcs)
    ensures var r := Run(env, FRESH, ClientStream(env, algo, srcs, size));
            if Agrees(env, algo, srcs) then r.status == Receiving && r.open == {} && Delivered(env, srcs, r)
            else r.status == WrongHash
  {
    hide Run, Delivered, FileMsgs;
    if srcs == [] {
      NothingArrives(env, algo, srcs, size);
    } else {
      var init, src := srcs[..|srcs| - 1], srcs[|srcs| - 1];
      Unsnoc(srcs);
      AllArrive(env, algo, init, size);
      var before := Run(env, FRESH, ClientStream(env, algo, init, size));
      var ms := FileMsgs(env, algo, src, size);
      RunAppend(env, FRESH, ClientStream(env, algo, init, size), ms);
      AgreesNext(env, algo, srcs);
      if Agrees(env, algo, init) {
        FileArrives(env, before, algo, src, size);
        DeliveredNext(env, init, src, before);
      } else {
        RunOver(env, before, ms);
      }
    }
  }

  lemma {:induction false} AgreesNext(env: Env, algo: HashMethod, srcs: seq<SourceFile>)
    requires srcs != []
    ensures var src := srcs[|srcs| - 1];
            Agrees(env, algo, srcs) <==>
            Agrees(env, algo, srcs[..|srcs| - 1]) && env.digest(algo, src.data) == env.digest(MD5, src.data)
  {
    var init := srcs[..|srcs| - 1];
    assert forall i | 0 <= i < |init| :: init[i] == srcs[i];
  }

  /** Chunked transfer end to end, for every chunk size and any files: the stream is accepted
      exactly when the client's digests equal the MD5 digests they are labelled as, and then
      every file is stored byte for byte. */
  lemma {:induction false} EndToEnd(env: Env, algo: HashMethod, srcs: seq<SourceFile>, size: nat)
    requires size > 0 && DistinctTargets(env, srcs)
    ensures var r := Run(env, FRESH, ClientStream(env, algo, srcs, size) + [Finalize]);
            && (r.status == Accepted <==> Agrees(env, algo, srcs))
            && (r.status == Accepted ==> Delivered(env, srcs, r))
            && (r.status == Accepted || r.status == WrongHash)
  {
    AllArrive(env, algo, srcs, size);
    var ms := ClientStream(env, algo, srcs, size);
    var s := Run(env, FRESH, ms);
    RunAppend(env, FRESH, ms, [Finalize]);
    if Agrees(env, algo, srcs) { RunOne(env, s, Finalize); } else { RunOver(env, s, [Finalize]); }
  }

  /** With the default method every upload is accepted. */
  lemma {:induction false} MD5UploadAccepted(env: Env, srcs: seq<SourceFile>, size: nat)
    requires size > 0 && DistinctTargets(env, srcs)
    ensures var r := Run(env, FRESH, ClientStream(env, MD5, srcs, size) + [Finalize]);
            r.status == Accepted && Delivered(env, srcs, r)
  {
    EndToEnd(env, MD5, srcs, size);
  }

  /** Digests that tell the method apart. */
  function Telling(): Env {
    Env(name => name, (algo, data) => if algo == MD5 then [0] else [1])
  }

  /** With such digests an upload under SHA-256 is refused for a wrong hash. */
  lemma {:induction false} SHA256Refused(size: nat)
    requires size > 0
    ensures var srcs := [SourceFile("a.yang", MODULE, [1, 2, 3])];
            DistinctTargets(Telling(), srcs) &&
            Run(Telling(), FRESH, ClientStream(Telling(), SHA256, srcs, size) + [Finalize]).status == WrongHash
  {
    var srcs := [SourceFile("a.yang", MODULE, [1, 2, 3])];
    EndToEnd(Telling(), SHA256, srcs, size);
    assert Telling().digest(SHA256, srcs[0].data) != Telling().digest(MD5, srcs[0].data);
    assert !Agrees(Telling(), SHA256, srcs);
  }
}
