/** The schema upload protocol: the server's message loop (`UploadSchema`) and the client's
    chunking loop (`uploadFileFn`). */
module Upload {
  import opened Wrappers
  import opened Text

  newtype byte = x: int | 0 <= x < 256
  type Bytes = seq<byte>

  datatype HashMethod = Unspecified | MD5 | SHA256 | SHA512 | UnknownMethod

  datatype FileType = MODULE | DEPENDENCY | UnknownType

  datatype Hash = Hash(algo: HashMethod, value: Bytes)

  datatype Msg =
    | SchemaFile(name: string, ftype: FileType, contents: Bytes, hash: Option<Hash>)
    | Finalize
    | Unexpected

  /** What the loop takes from its surroundings: where a file name is stored, and digests. */
  datatype Env = Env(join: string -> string, digest: (HashMethod, Bytes) -> Bytes)

  datatype Status =
    | Receiving
    | Accepted
    | MissingName
    | HashUnspecified
    | NoHasher           // a method number without a hasher: the nil hasher is called
    | WrongHash
    | PendingFiles
    | UnexpectedMessage

  /** The schema directory, the files being written, and the configuration collected so far. */
  datatype Session = Session(
    disk: map<string, Bytes>,
    open: set<string>,
    files: seq<string>,
    directories: seq<string>,
    status: Status)

  /** After the directory was removed and before the first file message. */
  const FRESH := Session(map[], {}, [], [], Receiving)

  // ----- one message

  function Created(s: Session, f: string): Session {
    if f in s.open then s else s.(disk := s.disk[f := []], open := s.open + {f})
  }

  function Written(s: Session, f: string, data: Bytes): Session
    requires f in s.disk
  {
    s.(disk := s.disk[f := s.disk[f] + data])
  }

  function Listed(s: Session, f: string, ft: FileType): Session {
    match ft
    case MODULE => s.(files := s.files + [f])
    case DEPENDENCY => s.(directories := s.directories + [f])
    case UnknownType => s
  }

  function Checked(env: Env, s: Session, f: string, ft: FileType, h: Hash): Session
    requires f in s.disk
  {
    if h.algo == Unspecified then s.(disk := map[], status := HashUnspecified)
    else if h.algo == UnknownMethod then s.(status := NoHasher)
    else if env.digest(h.algo, s.disk[f]) != h.value then s.(disk := map[], status := WrongHash)
    else Listed(s, f, ft).(open := s.open - {f})
  }

  function Step(env: Env, s: Session, m: Msg): Session
    requires s.open <= s.disk.Keys
  {
    if s.status != Receiving then s
    else
      match m
      case SchemaFile(name, ft, contents, hash) =>
        if name == "" then s.(status := MissingName)
        else
          var f := env.join(name);
          var w := Written(Created(s, f), f, contents);
          if hash.None? then w else Checked(env, w, f, ft, hash.value)
      case Finalize =>
        if s.open != {} then s.(disk := map[], status := PendingFiles) else s.(status := Accepted)
      case Unexpected => s.(disk := map[], status := UnexpectedMessage)
  }

  /** Once a run is refused, its open files no longer matter. */
  function Settled(s: Session): Session {
    if s.status == Receiving then s else s.(open := {})
  }

  function Run(env: Env, s: Session, ms: seq<Msg>): (r: Session)
    requires s.open <= s.disk.Keys
    ensures r.open <= r.disk.Keys
  {
    if ms == [] then Settled(s)
    else Settled(Step(env, Run(env, s, ms[..|ms| - 1]), ms[|ms| - 1]))
  }

  lemma {:induction false} RunAppend(env: Env, s: Session, a: seq<Msg>, b: seq<Msg>)
    requires s.open <= s.disk.Keys
    ensures Run(env, s, a + b) == Run(env, Run(env, s, a), b)
  {
    if b == [] {
      assert a + b == a;
      assert Settled(Run(env, s, a)) == Run(env, s, a) by { RunSettled(env, s, a); }
    } else {
      assert (a + b)[..|a + b| - 1] == a + b[..|b| - 1];
      RunAppend(env, s, a, b[..|b| - 1]);
    }
  }

  lemma {:induction false} RunSettled(env: Env, s: Session, ms: seq<Msg>)
    requires s.open <= s.disk.Keys
    ensures Settled(Run(env, s, ms)) == Run(env, s, ms)
  {
  }

  lemma {:induction false} RunOver(env: Env, s: Session, ms: seq<Msg>)
    requires s.open <= s.disk.Keys && s.status != Receiving
    ensures Run(env, s, ms) == Settled(s)
  {
    if ms != [] { RunOver(env, s, ms[..|ms| - 1]); }
  }

  /** A run that has stopped, or has no more messages, is the run of the whole stream. */
  lemma {:induction false} RunStopped(env: Env, stream: seq<Msg>, i: nat)
    requires i <= |stream| && (i < |stream| ==> Run(env, FRESH, stream[..i]).status != Receiving)
    ensures Run(env, FRESH, stream) == Run(env, FRESH, stream[..i])
  {
    assert stream == stream[..i] + stream[i..];
    if i < |stream| {
      RunAppend(env, FRESH, stream[..i], stream[i..]);
      RunOver(env, Run(env, FRESH, stream[..i]), stream[i..]);
      RunSettled(env, FRESH, stream[..i]);
    } else {
      assert stream[..i] == stream;
    }
  }

  // ----- the server

  /** `UploadSchema` after the create message. */
  class UploadServer {
    const env: Env
    var disk: map<string, Bytes>
    var handledFiles: set<string>
    var files: seq<string>
    var directories: seq<string>
    var status: Status

    ghost function State(): Session
      reads this
    {
      Session(disk, handledFiles, files, directories, status)
    }

    constructor (env: Env)
      ensures this.env == env && State() == FRESH
    {
      this.env := env;
      disk, handledFiles, files, directories, status := map[], {}, [], [], Receiving;
    }

    /** The read-back loop: reads of any positive size up to a megabyte feed the hasher
        everything the file holds, in order. */
    method ReadBack(content: Bytes) returns (fed: Bytes)
      ensures fed == content
    {
      fed := [];
      var offset := 0;
      while offset < |content|
        invariant 0 <= offset <= |content| && fed == content[..offset]
      {
        var n :| 0 < n <= 1024 * 1024 && offset + n <= |content|;
        fed := fed + content[offset..offset + n];
        offset := offset + n;
      }
    }

    /** One iteration of the message loop. */
    method Receive(m: Msg)
      requires status == Receiving && handledFiles <= disk.Keys
      modifies this`disk, this`handledFiles, this`files, this`directories, this`status
      ensures State() == Settled(Step(env, old(State()), m))
    {
      match m {
        case SchemaFile(name, ft, contents, hash) =>
          if name == "" {
            status, handledFiles := MissingName, {};
            return;
          }
          var f := env.join(name);
          if f !in handledFiles {
            disk, handledFiles := disk[f := []], handledFiles + {f};
          }
          if |contents| > 0 { disk := disk[f := disk[f] + contents]; }
          ghost var w := Written(Created(old(State()), f), f, contents);
          assert w.disk == disk by { assert disk[f] == w.disk[f]; }
          if hash.Some? {
            var h := hash.value;
            if h.algo == Unspecified {
              disk, status, handledFiles := map[], HashUnspecified, {};
              return;
            }
            var fed := ReadBack(disk[f]);
            if h.algo == UnknownMethod {
              status, handledFiles := NoHasher, {};
              return;
            }
            if env.digest(h.algo, fed) != h.value {
              disk, status, handledFiles := map[], WrongHash, {};
              return;
            }
            match ft {
              case MODULE => files := files + [f];
              case DEPENDENCY => directories := directories + [f];
              case UnknownType =>
            }
            handledFiles := handledFiles - {f};
          }
        case Finalize =>
          if handledFiles != {} {
            disk, status, handledFiles := map[], PendingFiles, {};
          } else {
            status := Accepted;
          }
        case Unexpected =>
          disk, status, handledFiles := map[], UnexpectedMessage, {};
      }
    }

    /** The whole loop: messages are received until one ends the run or the stream ends. */
    method Serve(stream: seq<Msg>)
      requires State() == FRESH
      modifies this`disk, this`handledFiles, this`files, this`directories, this`status
      ensures State() == Run(env, FRESH, stream)
    {
      var i := 0;
      assert stream[..0] == [];
      while i < |stream| && status == Receiving
        invariant 0 <= i <= |stream|
        invariant State() == Run(env, FRESH, stream[..i])
      {
        SliceNext(stream, 0, i);
        SnocParts(stream[..i], stream[i]);
        Receive(stream[i]);
        i := i + 1;
      }
      RunStopped(env, stream, i);
    }
  }

  // ----- what the messages alone say

  predicate IsFor(env: Env, m: Msg, f: string) {
    m.SchemaFile? && env.join(m.name) == f
  }

  predicate Touched(env: Env, ms: seq<Msg>, f: string) {
    exists i | 0 <= i < |ms| :: IsFor(env, ms[i], f)
  }

  /** The latest message for `f` carried no hash. */
  predicate Pending(env: Env, ms: seq<Msg>, f: string) {
    if ms == [] then false
    else
      var m := ms[|ms| - 1];
      if IsFor(env, m, f) then m.hash.None? else Pending(env, ms[..|ms| - 1], f)
  }

  /** The message that created the file as it is now: the first one for `f` after the last
      hash that came before the latest message for `f`. */
  function CreatedAt(env: Env, ms: seq<Msg>, f: string): (i: nat)
    ensures i <= |ms|
  {
    if ms == [] then 0
    else
      var init := ms[..|ms| - 1];
      if !IsFor(env, ms[|ms| - 1], f) || Pending(env, init, f) then CreatedAt(env, init, f) else |init|
  }

  /** All chunks for `f`, concatenated. */
  function Chunks(env: Env, ms: seq<Msg>, f: string): Bytes {
    if ms == [] then []
    else
      var m := ms[|ms| - 1];
      Chunks(env, ms[..|ms| - 1], f) + if IsFor(env, m, f) then m.contents else []
  }

  function Content(env: Env, ms: seq<Msg>, f: string): Bytes {
    Chunks(env, ms[CreatedAt(env, ms, f)..], f)
  }

  function LastHash(env: Env, ms: seq<Msg>, f: string): Option<Hash> {
    if ms == [] then None
    else
      var m := ms[|ms| - 1];
      if IsFor(env, m, f) && m.hash.Some? then m.hash else LastHash(env, ms[..|ms| - 1], f)
  }

  /** The names of the hash-bearing messages of one type, in order. */
  function Hashed(env: Env, ms: seq<Msg>, ft: FileType): seq<string> {
    if ms == [] then []
    else
      var m := ms[|ms| - 1];
      Hashed(env, ms[..|ms| - 1], ft) +
      if m.SchemaFile? && m.hash.Some? && m.ftype == ft then [env.join(m.name)] else []
  }

  /** The message is one that lets the run go on after `before`. */
  predicate Good(env: Env, before: seq<Msg>, m: Msg) {
    && m.SchemaFile? && m.name != ""
    && (m.hash.Some? ==>
          && m.hash.value.algo != Unspecified && m.hash.value.algo != UnknownMethod
          && env.digest(m.hash.value.algo, Content(env, before + [m], env.join(m.name))) == m.hash.value.value)
  }

  predicate AllGood(env: Env, ms: seq<Msg>) {
    ms == [] || (AllGood(env, ms[..|ms| - 1]) && Good(env, ms[..|ms| - 1], ms[|ms| - 1]))
  }

  /** The session agrees with the messages received so far. */
  ghost predicate Tracks(env: Env, ms: seq<Msg>, s: Session) {
    && s.status == Receiving
    && (forall f :: f in s.open <==> Pending(env, ms, f))
    && DiskTracks(env, ms, s.disk)
    && s.files == Hashed(env, ms, MODULE)
    && s.directories == Hashed(env, ms, DEPENDENCY)
  }

  lemma {:induction false} TouchedNext(env: Env, ms: seq<Msg>, m: Msg, f: string)
    ensures Touched(env, ms + [m], f) <==> Touched(env, ms, f) || IsFor(env, m, f)
  {
    var all := ms + [m];
    if Touched(env, ms, f) {
      var i :| 0 <= i < |ms| && IsFor(env, ms[i], f);
      assert IsFor(env, all[i], f);
    }
    if IsFor(env, m, f) { assert IsFor(env, all[|ms|], f); }
  }

  lemma {:induction false} ContentNext(env: Env, ms: seq<Msg>, m: Msg, f: string)
    ensures Content(env, ms + [m], f) ==
            if !IsFor(env, m, f) then Content(env, ms, f)
            else (if Pending(env, ms, f) then Content(env, ms, f) else []) + m.contents
  {
    var all := ms + [m];
    assert all[..|all| - 1] == ms;
    var i := CreatedAt(env, all, f);
    var part := all[i..];
    assert part[..|part| - 1] == ms[i..] && part[|part| - 1] == m;
    assert Chunks(env, ms[i..], f) + [] == Chunks(env, ms[i..], f);
  }

  lemma {:induction false} PendingIsTouched(env: Env, ms: seq<Msg>, f: string)
    requires Pending(env, ms, f)
    ensures Touched(env, ms, f)
  {
    if !IsFor(env, ms[|ms| - 1], f) {
      PendingIsTouched(env, ms[..|ms| - 1], f);
      TouchedNext(env, ms[..|ms| - 1], ms[|ms| - 1], f);
      assert ms == ms[..|ms| - 1] + [ms[|ms| - 1]];
    }
  }

  ghost predicate DiskTracks(env: Env, ms: seq<Msg>, disk: map<string, Bytes>) {
    && (forall f :: f in disk <==> Touched(env, ms, f))
    && (forall f | f in disk :: disk[f] == Content(env, ms, f))
  }

  lemma {:induction false} DiskNext(env: Env, ms: seq<Msg>, m: Msg, s: Session)
    requires Tracks(env, ms, s) && s.open <= s.disk.Keys && m.SchemaFile?
    ensures var f := env.join(m.name);
            DiskTracks(env, ms + [m], Written(Created(s, f), f, m.contents).disk)
  {
    var f := env.join(m.name);
    var disk := Written(Created(s, f), f, m.contents).disk;
    forall g ensures g in disk <==> Touched(env, ms + [m], g) {
      TouchedNext(env, ms, m, g);
    }
    forall g | g in disk ensures disk[g] == Content(env, ms + [m], g) {
      ContentNext(env, ms, m, g);
    }
  }

  lemma {:induction false} ListsNext(env: Env, ms: seq<Msg>, m: Msg)
    requires m.SchemaFile?
    ensures forall ft :: Hashed(env, ms + [m], ft) ==
              Hashed(env, ms, ft) + if m.hash.Some? && m.ftype == ft then [env.join(m.name)] else []
    ensures forall f :: Pending(env, ms + [m], f) == if IsFor(env, m, f) then m.hash.None? else Pending(env, ms, f)
  {
    var all := ms + [m];
    assert all[..|all| - 1] == ms;
  }

  lemma {:induction false} GoodStep(env: Env, ms: seq<Msg>, m: Msg, s: Session)
    requires Tracks(env, ms, s) && s.open <= s.disk.Keys && m.SchemaFile? && m.name != ""
    ensures var f := env.join(m.name);
            var w := Written(Created(s, f), f, m.contents);
            if m.hash.None? then Step(env, s, m) == w
            else if Good(env, ms, m) then Step(env, s, m) == Listed(w, f, m.ftype).(open := w.open - {f})
            else Step(env, s, m).status !in {Receiving, Accepted}
  {
    hide Content, Touched, Hashed, Pending;
    DiskNext(env, ms, m, s);
    var f := env.join(m.name);
    assert Written(Created(s, f), f, m.contents).disk[f] == Content(env, ms + [m], f);
  }

  /** The session after a good message. */
  function Taken(env: Env, s: Session, m: Msg): Session
    requires m.SchemaFile? && s.open <= s.disk.Keys
  {
    var f := env.join(m.name);
    var w := Written(Created(s, f), f, m.contents);
    if m.hash.None? then w else Listed(w, f, m.ftype).(open := w.open - {f})
  }

  lemma {:induction false} TakenLists(env: Env, ms: seq<Msg>, m: Msg, s: Session)
    requires Tracks(env, ms, s) && s.open <= s.disk.Keys && m.SchemaFile?
    ensures Taken(env, s, m).files == Hashed(env, ms + [m], MODULE)
    ensures Taken(env, s, m).directories == Hashed(env, ms + [m], DEPENDENCY)
    ensures Taken(env, s, m).status == Receiving
  {
    hide DiskTracks, Pending;
    ListsNext(env, ms, m);
    assert s.files + [] == s.files && s.directories + [] == s.directories;
  }

  lemma {:induction false} TakenOpen(env: Env, ms: seq<Msg>, m: Msg, s: Session)
    requires Tracks(env, ms, s) && s.open <= s.disk.Keys && m.SchemaFile?
    ensures forall f :: f in Taken(env, s, m).open <==> Pending(env, ms + [m], f)
  {
    hide DiskTracks, Hashed;
    ListsNext(env, ms, m);
  }

  lemma {:induction false} TracksNext(env: Env, ms: seq<Msg>, m: Msg, s: Session)
    requires Tracks(env, ms, s) && s.open <= s.disk.Keys && Good(env, ms, m)
    ensures Tracks(env, ms + [m], Settled(Step(env, s, m)))
  {
    DiskNext(env, ms, m, s);
    GoodStep(env, ms, m, s);
    TakenLists(env, ms, m, s);
    TakenOpen(env, ms, m, s);
    StepTakes(env, ms, m, s);
    hide DiskTracks, Pending, Hashed, Good, Step, Taken;
  }

  lemma {:induction false} StepTakes(env: Env, ms: seq<Msg>, m: Msg, s: Session)
    requires Tracks(env, ms, s) && s.open <= s.disk.Keys && Good(env, ms, m)
    ensures var f := env.join(m.name);
            && Step(env, s, m) == Taken(env, s, m) && Settled(Taken(env, s, m)) == Taken(env, s, m)
            && Taken(env, s, m).disk == Written(Created(s, f), f, m.contents).disk
  {
    GoodStep(env, ms, m, s);
    TakenLists(env, ms, m, s);
    hide DiskTracks, Pending, Hashed, Good, Step, Content;
  }

  lemma {:induction false} BadStep(env: Env, ms: seq<Msg>, m: Msg, s: Session)
    requires Tracks(env, ms, s) && s.open <= s.disk.Keys && !Good(env, ms, m)
    ensures Step(env, s, m).status != Receiving
  {
    if m.SchemaFile? && m.name != "" { GoodStep(env, ms, m, s); }
  }

  /** A run goes on exactly as long as every message is a good one, and then the directory,
      the open files and the lists are what the messages alone determine. */
  lemma {:induction false} RunTracks(env: Env, ms: seq<Msg>)
    ensures Run(env, FRESH, ms).status == Receiving <==> AllGood(env, ms)
    ensures AllGood(env, ms) ==> Tracks(env, ms, Run(env, FRESH, ms))
  {
    if ms != [] {
      var init, m := ms[..|ms| - 1], ms[|ms| - 1];
      RunTracks(env, init);
      assert init + [m] == ms;
      if Good(env, init, m) {
        if AllGood(env, init) { TracksNext(env, init, m, Run(env, FRESH, init)); }
      } else if AllGood(env, init) {
        BadStep(env, init, m, Run(env, FRESH, init));
      }
    }
  }

  /** The files that received a message were all verified, against the last hash received. */
  lemma {:induction false} VerifiedContent(env: Env, ms: seq<Msg>, f: string)
    requires AllGood(env, ms) && Touched(env, ms, f) && !Pending(env, ms, f)
    ensures LastHash(env, ms, f).Some?
    ensures var h := LastHash(env, ms, f).value; env.digest(h.algo, Content(env, ms, f)) == h.value
  {
    var init, m := ms[..|ms| - 1], ms[|ms| - 1];
    assert ms == init + [m];
    if !IsFor(env, m, f) {
      TouchedNext(env, init, m, f);
      ContentNext(env, init, m, f);
      VerifiedContent(env, init, f);
    }
  }

  /** What holds of the schema directory when a finalize message is accepted. */
  ghost predicate Complete(env: Env, ms: seq<Msg>, s: Session) {
    && (forall f :: f in s.disk <==> Touched(env, ms, f))
    && (forall f | f in s.disk ::
          && s.disk[f] == Content(env, ms, f)
          && LastHash(env, ms, f).Some?
          && env.digest(LastHash(env, ms, f).value.algo, s.disk[f]) == LastHash(env, ms, f).value.value)
    && s.files == Hashed(env, ms, MODULE)
    && s.directories == Hashed(env, ms, DEPENDENCY)
  }

  lemma {:induction false} AllVerified(env: Env, ms: seq<Msg>, s: Session)
    requires Tracks(env, ms, s) && AllGood(env, ms) && s.open == {}
    ensures Complete(env, ms, s.(status := Accepted))
  {
    forall f | f in s.disk
      ensures LastHash(env, ms, f).Some?
      ensures env.digest(LastHash(env, ms, f).value.algo, s.disk[f]) == LastHash(env, ms, f).value.value
    {
      assert f !in s.open;
      VerifiedContent(env, ms, f);
    }
  }

  ghost predicate NonePending(env: Env, ms: seq<Msg>) {
    forall f :: !Pending(env, ms, f)
  }

  /** Which runs a finalize message ends well: good file messages, none left without a hash. */
  lemma {:induction false} FinalizeAccepted(env: Env, ms: seq<Msg>)
    requires Run(env, FRESH, ms).status != Accepted
    ensures Run(env, FRESH, ms + [Finalize]).status == Accepted <==> AllGood(env, ms) && NonePending(env, ms)
    ensures Run(env, FRESH, ms + [Finalize]).status == Accepted
        ==> Complete(env, ms, Run(env, FRESH, ms + [Finalize]))
  {
    var all := ms + [Finalize];
    assert all[..|all| - 1] == ms;
    RunTracks(env, ms);
    var s := Run(env, FRESH, ms);
    if AllGood(env, ms) {
      NothingOpen(env, ms, s);
      if s.open == {} {
        AllVerified(env, ms, s);
        assert Run(env, FRESH, all) == s.(status := Accepted);
      }
    }
  }

  lemma {:induction false} NothingOpen(env: Env, ms: seq<Msg>, s: Session)
    requires Tracks(env, ms, s)
    ensures s.open == {} <==> NonePending(env, ms)
  {
    assert s.open == {} ==> forall f :: f !in s.open;
  }

  lemma {:induction false} OnlyFinalizeAccepts(env: Env, s: Session, m: Msg)
    requires s.open <= s.disk.Keys && s.status != Accepted && Step(env, s, m).status == Accepted
    ensures m == Finalize && s.status == Receiving
  {
  }

  /** Upload run safety: in every run that reaches an accepted finalize, each file that
      received a message holds the chunks since its creation, matches its last hash, and
      the lists are the hash-bearing messages in order. */
  lemma {:induction false} UploadSafety(env: Env, stream: seq<Msg>) returns (n: nat)
    requires Run(env, FRESH, stream).status == Accepted
    ensures n < |stream| && stream[n] == Finalize && AllGood(env, stream[..n])
    ensures Complete(env, stream[..n], Run(env, FRESH, stream))
  {
    var init, m := stream[..|stream| - 1], stream[|stream| - 1];
    assert stream == init + [m];
    if Run(env, FRESH, init).status == Accepted {
      n := UploadSafety(env, init);
      assert stream[..n] == init[..n];
    } else {
      n := |init|;
      RunTracks(env, init);
      OnlyFinalizeAccepts(env, Run(env, FRESH, init), m);
      FinalizeAccepted(env, init);
    }
  }

  // ----- refusals

  /** The message that ends a run, and how: after good messages `ms`, `m` is refused for one
      reason.  All reasons but two leave an empty directory; a missing name leaves what the
      messages before it wrote, a method without a hasher also what this one wrote. */
  ghost predicate RefusedBy(env: Env, ms: seq<Msg>, m: Msg, s: Session) {
    match m
    case Unexpected => s.status == UnexpectedMessage && s.disk == map[]
    case Finalize => s.status == PendingFiles && s.disk == map[]
    case SchemaFile(name, ft, contents, hash) =>
      if name == "" then s.status == MissingName && DiskTracks(env, ms, s.disk)
      else if hash.None? then false
      else if hash.value.algo == Unspecified then s.status == HashUnspecified && s.disk == map[]
      else if hash.value.algo == UnknownMethod then s.status == NoHasher && DiskTracks(env, ms + [m], s.disk)
      else s.status == WrongHash && s.disk == map[]
  }

  lemma {:induction false} EndsAt(env: Env, ms: seq<Msg>, m: Msg, rest: seq<Msg>)
    requires Run(env, FRESH, ms + [m]).status != Receiving
    ensures Run(env, FRESH, ms + [m] + rest) == Run(env, FRESH, ms + [m])
  {
    RunAppend(env, FRESH, ms + [m], rest);
    RunOver(env, Run(env, FRESH, ms + [m]), rest);
    RunSettled(env, FRESH, ms + [m]);
  }

  /** The first message that is not good ends the run, whatever follows: a finalize message with
      no file pending accepts, anything else is refused for its own reason. */
  lemma {:induction false} RunDecided(env: Env, ms: seq<Msg>, m: Msg, rest: seq<Msg>)
    requires AllGood(env, ms) && !Good(env, ms, m)
    ensures var s := Run(env, FRESH, ms + [m] + rest);
            if m == Finalize && NonePending(env, ms) then s.status == Accepted && Complete(env, ms, s)
            else RefusedBy(env, ms, m, s)
  {
    hide Content, Complete, Good, DiskTracks;
    var s := Run(env, FRESH, ms);
    RunTracks(env, ms);
    SnocParts(ms, m);
    BadStep(env, ms, m, s);
    EndsAt(env, ms, m, rest);
    NothingOpen(env, ms, s);
    if m == Finalize { FinalizeAccepted(env, ms); }
    if m.SchemaFile? && m.name != "" { BadFile(env, ms, m, s); }
  }

  lemma {:induction false} BadFile(env: Env, ms: seq<Msg>, m: Msg, s: Session)
    requires Tracks(env, ms, s) && s.open <= s.disk.Keys && !Good(env, ms, m) && m.SchemaFile? && m.name != ""
    ensures m.hash.Some? && RefusedBy(env, ms, m, Settled(Step(env, s, m)))
  {
    hide Content, DiskTracks;
    DiskNext(env, ms, m, s);
    GoodStep(env, ms, m, s);
    var f := env.join(m.name);
    WrittenContent(env, ms, m, s);
  }

  lemma {:induction false} WrittenContent(env: Env, ms: seq<Msg>, m: Msg, s: Session)
    requires Tracks(env, ms, s) && s.open <= s.disk.Keys && m.SchemaFile?
    ensures var f := env.join(m.name); Written(Created(s, f), f, m.contents).disk[f] == Content(env, ms + [m], f)
  {
    DiskNext(env, ms, m, s);
  }
}
