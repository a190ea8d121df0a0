/**
 The private response cache: one body file and one metadata file per URI, each replaced atomically but
 not together.
 */
module ResponseCache {
  import opened Common
  import opened Hashing

  datatype CachedResponse = CachedResponse(content: Bytes, contentType: string)

  datatype Metadata = Metadata(contentType: string, sha256: Digest, storedAt: real)

  /** The metadata file: a JSON object with the three fields, or something `get` cannot use. */
  datatype MetaFile = Readable(meta: Metadata) | Unreadable

  /** The two files of each key. */
  datatype Files = Files(bodies: map<Digest, Bytes>, metas: map<Digest, MetaFile>)

  function FileKey(uri: string): Digest {
    OfText(uri)
  }

  predicate Expired(maxAge: Option<real>, storedAt: real, now: real) {
    maxAge.Some? && now - storedAt > maxAge.value
  }

  /** What `get` makes of the two contents it has read. */
  function Combine(content: Bytes, file: MetaFile, maxAge: Option<real>, now: real): Option<CachedResponse> {
    match file
    case Unreadable => None
    case Readable(meta) =>
      if Expired(maxAge, meta.storedAt, now) then None
      else if OfBytes(content) != meta.sha256 then None
      else Some(CachedResponse(content, meta.contentType))
  }

  // ----- concurrent use -----

  /** Where a `put` stands: the stage files are complete, then the body is in place, then both are. */
  datatype PutPhase = Staged | BodyReplaced | BothReplaced | Abandoned

  datatype Putter = Putter(uri: string, value: Bytes, contentType: string, storedAt: real, phase: PutPhase)

  /** Where a `get` stands: both files seen to exist, then the body read, then answered. */
  datatype GetPhase = Begun | Probed | HasBody(content: Bytes) | Returned(result: Option<CachedResponse>)

  datatype Getter = Getter(uri: string, phase: GetPhase)

  /** Metadata that damage, and no put, has left in a file. */
  datatype Forgery = Forgery(key: Digest, meta: Metadata)

  datatype Sys = Sys(files: Files, puts: seq<Putter>, gets: seq<Getter>, forged: seq<Forgery>)

  /**
   Steps of any number of overlapping puts and gets.  A put may stop for good at any point, and either file may be
   damaged at any time, metadata so that it cannot be read or so that it reads differently.
   */
  datatype Event =
    | Stage(uri: string, value: Bytes, contentType: string, now: real)
    | ReplaceBody(p: nat)
    | ReplaceMeta(p: nat)
    | Abandon(p: nat)
    | DamageBody(key: Digest, content: Bytes)
    | DamageMeta(key: Digest, file: MetaFile)
    | BeginGet(uri: string)
    | Probe(g: nat)
    | ReadBody(g: nat)
    | ReadMeta(g: nat, now: real)

  function MetaOf(p: Putter): Metadata {
    Metadata(p.contentType, OfBytes(p.value), p.storedAt)
  }

  function SetPut(s: Sys, i: nat, phase: PutPhase): Sys
    requires i < |s.puts|
  {
    s.(puts := s.puts[i := s.puts[i].(phase := phase)])
  }

  function SetGet(s: Sys, i: nat, phase: GetPhase): Sys
    requires i < |s.gets|
  {
    s.(gets := s.gets[i := s.gets[i].(phase := phase)])
  }

  function Step(maxAge: Option<real>, s: Sys, e: Event): Sys {
    match e
    case Stage(uri, value, contentType, now) =>
      s.(puts := s.puts + [Putter(uri, value, contentType, now, Staged)])
    case ReplaceBody(i) =>
      if i < |s.puts| && s.puts[i].phase.Staged? then
        var bodies := s.files.bodies[FileKey(s.puts[i].uri) := s.puts[i].value];
        SetPut(s, i, BodyReplaced).(files := s.files.(bodies := bodies))
      else s
    case ReplaceMeta(i) =>
      if i < |s.puts| && s.puts[i].phase.BodyReplaced? then
        var metas := s.files.metas[FileKey(s.puts[i].uri) := Readable(MetaOf(s.puts[i]))];
        SetPut(s, i, BothReplaced).(files := s.files.(metas := metas))
      else s
    case Abandon(i) =>
      if i < |s.puts| && !s.puts[i].phase.BothReplaced? then SetPut(s, i, Abandoned) else s
    case DamageBody(key, content) =>
      if key in s.files.bodies then s.(files := s.files.(bodies := s.files.bodies[key := content])) else s
    case DamageMeta(key, file) =>
      if key !in s.files.metas then s
      else
        s.(files := s.files.(metas := s.files.metas[key := file]),
           forged := s.forged + if file.Readable? then [Forgery(key, file.meta)] else [])
    case BeginGet(uri) =>
      s.(gets := s.gets + [Getter(uri, Begun)])
    case Probe(g) =>
      if g < |s.gets| && s.gets[g].phase.Begun? then
        var key := FileKey(s.gets[g].uri);
        SetGet(s, g, if key in s.files.bodies && key in s.files.metas then Probed else Returned(None))
      else s
    case ReadBody(g) =>
      if g < |s.gets| && s.gets[g].phase.Probed? then
        var key := FileKey(s.gets[g].uri);
        SetGet(s, g, if key in s.files.bodies then HasBody(s.files.bodies[key]) else Returned(None))
      else s
    case ReadMeta(g, now) =>
      if g < |s.gets| && s.gets[g].phase.HasBody? then
        var key := FileKey(s.gets[g].uri);
        var content := s.gets[g].phase.content;
        SetGet(s, g, Returned(if key in s.files.metas then Combine(content, s.files.metas[key], maxAge, now) else None))
      else s
  }

  function Run(maxAge: Option<real>, s: Sys, es: seq<Event>): Sys
    decreases |es|
  {
    if es == [] then s else Run(maxAge, Step(maxAge, s, es[0]), es[1..])
  }

  const INIT := Sys(Files(map[], map[]), [], [], [])

  /** A put for the URI that has put both of its files in place. */
  ghost predicate Published(s: Sys, uri: string, p: Putter) {
    p in s.puts && p.uri == uri && p.phase.BothReplaced?
  }

  /** The metadata is that of a published put, or damage has left it. */
  ghost predicate MetaBacked(s: Sys, key: Digest, m: Metadata) {
    || (exists p: Putter :: Published(s, p.uri, p) && FileKey(p.uri) == key && MetaOf(p) == m)
    || Forgery(key, m) in s.forged
  }

  ghost predicate FromPut(s: Sys, uri: string, r: CachedResponse) {
    exists p :: Published(s, uri, p) && r == CachedResponse(p.value, p.contentType)
  }

  ghost predicate FromForgery(s: Sys, uri: string, r: CachedResponse) {
    exists m :: Forgery(FileKey(uri), m) in s.forged && m.sha256 == OfBytes(r.content) && m.contentType == r.contentType
  }

  ghost predicate ResultBacked(s: Sys, g: Getter) {
    g.phase.Returned? && g.phase.result.Some? ==>
      FromPut(s, g.uri, g.phase.result.value) || FromForgery(s, g.uri, g.phase.result.value)
  }

  ghost predicate FileBacked(s: Sys, key: Digest)
    requires key in s.files.metas
  {
    s.files.metas[key].Readable? ==> MetaBacked(s, key, s.files.metas[key].meta)
  }

  ghost predicate Inv(s: Sys) {
    && (forall key | key in s.files.metas :: FileBacked(s, key))
    && (forall g | g in s.gets :: ResultBacked(s, g))
  }

  /** A published put stays published, and damage done is remembered. */
  lemma PublishedStays(maxAge: Option<real>, s: Sys, e: Event, uri: string, p: Putter)
    requires Published(s, uri, p)
    ensures Published(Step(maxAge, s, e), uri, p)
  {
    var t := Step(maxAge, s, e);
    var i :| 0 <= i < |s.puts| && s.puts[i] == p;
    assert t.puts[i] == p;
  }

  lemma ForgeriesStay(maxAge: Option<real>, s: Sys, e: Event, f: Forgery)
    requires f in s.forged
    ensures f in Step(maxAge, s, e).forged
  {
  }

  lemma MetaStaysBacked(maxAge: Option<real>, s: Sys, e: Event, key: Digest, m: Metadata)
    requires MetaBacked(s, key, m)
    ensures MetaBacked(Step(maxAge, s, e), key, m)
  {
    if Forgery(key, m) in s.forged {
      ForgeriesStay(maxAge, s, e, Forgery(key, m));
    } else {
      var p: Putter :| Published(s, p.uri, p) && FileKey(p.uri) == key && MetaOf(p) == m;
      PublishedStays(maxAge, s, e, p.uri, p);
    }
  }

  lemma FilesStayBacked(maxAge: Option<real>, s: Sys, e: Event, key: Digest)
    requires Inv(s) && key in Step(maxAge, s, e).files.metas
    ensures FileBacked(Step(maxAge, s, e), key)
  {
    var t := Step(maxAge, s, e);
    if key in s.files.metas && t.files.metas[key] == s.files.metas[key] {
      assert FileBacked(s, key);
      if t.files.metas[key].Readable? {
        MetaStaysBacked(maxAge, s, e, key, s.files.metas[key].meta);
      }
    } else if e.ReplaceMeta? {
      var p := t.puts[e.p];
      assert Published(t, p.uri, p) && FileKey(p.uri) == key;
    } else {
      assert e.DamageMeta? && e.key == key && t.files.metas[key] == e.file;
    }
  }

  /** What `get` answers with is backed as the metadata it has read is. */
  lemma CombineBacked(s: Sys, uri: string, content: Bytes, file: MetaFile, maxAge: Option<real>, now: real)
    requires file.Readable? ==> MetaBacked(s, FileKey(uri), file.meta)
    ensures var r := Combine(content, file, maxAge, now);
            r.Some? ==> FromPut(s, uri, r.value) || FromForgery(s, uri, r.value)
  {
    var r := Combine(content, file, maxAge, now);
    if r.Some? && Forgery(FileKey(uri), file.meta) !in s.forged {
      var p: Putter :| Published(s, p.uri, p) && FileKey(p.uri) == FileKey(uri) && MetaOf(p) == file.meta;
      assert Published(s, uri, p);
    }
  }

  lemma ResponseStaysBacked(maxAge: Option<real>, s: Sys, e: Event, uri: string, r: CachedResponse)
    requires FromPut(s, uri, r) || FromForgery(s, uri, r)
    ensures var t := Step(maxAge, s, e); FromPut(t, uri, r) || FromForgery(t, uri, r)
  {
    if FromPut(s, uri, r) {
      var p :| Published(s, uri, p) && r == CachedResponse(p.value, p.contentType);
      PublishedStays(maxAge, s, e, uri, p);
    } else {
      var m :| Forgery(FileKey(uri), m) in s.forged && m.sha256 == OfBytes(r.content) && m.contentType == r.contentType;
      ForgeriesStay(maxAge, s, e, Forgery(FileKey(uri), m));
    }
  }

  lemma ResultsStayBacked(maxAge: Option<real>, s: Sys, e: Event, g: Getter)
    requires Inv(s) && g in Step(maxAge, s, e).gets
    ensures ResultBacked(Step(maxAge, s, e), g)
  {
    if g in s.gets {
      assert ResultBacked(s, g);
      if g.phase.Returned? && g.phase.result.Some? {
        ResponseStaysBacked(maxAge, s, e, g.uri, g.phase.result.value);
      }
    } else if g.phase.Returned? && g.phase.result.Some? {
      assert e.ReadMeta?;
      var key := FileKey(g.uri);
      assert FileBacked(s, key);
      CombineBacked(s, g.uri, s.gets[e.g].phase.content, s.files.metas[key], maxAge, e.now);
      ResponseStaysBacked(maxAge, s, e, g.uri, g.phase.result.value);
    }
  }

  lemma {:induction false} RunKeepsInv(maxAge: Option<real>, s: Sys, es: seq<Event>)
    requires Inv(s)
    ensures Inv(Run(maxAge, s, es))
    decreases |es|
  {
    if es != [] {
      var t := Step(maxAge, s, es[0]);
      forall key | key in t.files.metas
        ensures FileBacked(t, key)
      {
        FilesStayBacked(maxAge, s, es[0], key);
      }
      forall g | g in t.gets
        ensures ResultBacked(t, g)
      {
        ResultsStayBacked(maxAge, s, es[0], g);
      }
      RunKeepsInv(maxAge, t, es[1..]);
    }
  }

  /**
   Whatever overlaps, stops or is damaged, a response returned for a URI is the content and content type of one
   single put for that URI, never a mixture of two; only metadata that damage has left readable, with the hash of the
   content, can stand in for a put's.
   */
  lemma NeverAMixture(maxAge: Option<real>, es: seq<Event>, g: Getter)
    requires var s := Run(maxAge, INIT, es); g in s.gets && g.phase.Returned? && g.phase.result.Some?
    ensures var s := Run(maxAge, INIT, es); var r := g.phase.result.value;
            FromPut(s, g.uri, r) || FromForgery(s, g.uri, r)
    ensures (forall i | 0 <= i < |es| :: !(es[i].DamageMeta? && es[i].file.Readable?)) ==>
              FromPut(Run(maxAge, INIT, es), g.uri, g.phase.result.value)
  {
    RunKeepsInv(maxAge, INIT, es);
    assert ResultBacked(Run(maxAge, INIT, es), g);
    if forall i | 0 <= i < |es| :: !(es[i].DamageMeta? && es[i].file.Readable?) {
      NothingForged(maxAge, INIT, es);
    }
  }

  lemma {:induction false} NothingForged(maxAge: Option<real>, s: Sys, es: seq<Event>)
    requires forall i | 0 <= i < |es| :: !(es[i].DamageMeta? && es[i].file.Readable?)
    ensures Run(maxAge, s, es).forged == s.forged
    decreases |es|
  {
    if es != [] {
      NothingForged(maxAge, Step(maxAge, s, es[0]), es[1..]);
    }
  }

  // ----- sequential use -----

  function Put(f: Files, uri: string, value: Bytes, contentType: string, now: real): Files {
    Files(f.bodies[FileKey(uri) := value],
        f.metas[FileKey(uri) := Readable(Metadata(contentType, OfBytes(value), now))])
  }

  function Get(f: Files, maxAge: Option<real>, uri: string, now: real): Option<CachedResponse> {
    var key := FileKey(uri);
    if key !in f.bodies || key !in f.metas then None else Combine(f.bodies[key], f.metas[key], maxAge, now)
  }

  // ----- calls that nothing overlaps -----

  lemma ThreeEvents(maxAge: Option<real>, s: Sys, a: Event, b: Event, c: Event)
    ensures Run(maxAge, s, [a, b, c]) == Step(maxAge, Step(maxAge, Step(maxAge, s, a), b), c)
  {
    assert [a, b, c][1..] == [b, c] && [b, c][1..] == [c] && [c][1..] == [];
    assert Run(maxAge, Step(maxAge, s, a), [b, c]) == Run(maxAge, Step(maxAge, Step(maxAge, s, a), b), [c]);
  }

  /** The three steps of a put, with nothing between them, leave what `Put` says. */
  lemma PutAlone(maxAge: Option<real>, s: Sys, uri: string, value: Bytes, contentType: string, now: real)
    ensures var t := Run(maxAge, s,
            [Stage(uri, value, contentType, now), ReplaceBody(|s.puts|), ReplaceMeta(|s.puts|)]);
            && t.files == Put(s.files, uri, value, contentType, now)
            && t.gets == s.gets && t.puts == s.puts + [Putter(uri, value, contentType, now, BothReplaced)]
  {
    var n := |s.puts|;
    ThreeEvents(maxAge, s, Stage(uri, value, contentType, now), ReplaceBody(n), ReplaceMeta(n));
    var s1 := Step(maxAge, s, Stage(uri, value, contentType, now));
    assert s1.puts[n] == Putter(uri, value, contentType, now, Staged);
    var s2 := Step(maxAge, s1, ReplaceBody(n));
    assert s2.puts[n] == Putter(uri, value, contentType, now, BodyReplaced);
  }

  /** The steps of a get, with nothing between them, answer as `Get` does and change no file. */
  lemma GetAlone(maxAge: Option<real>, s: Sys, uri: string, now: real)
    ensures var n := |s.gets|;
            var t := Run(maxAge, Step(maxAge, s, BeginGet(uri)), [Probe(n), ReadBody(n), ReadMeta(n, now)]);
            && t.gets == s.gets + [Getter(uri, Returned(Get(s.files, maxAge, uri, now)))]
            && t.files == s.files && t.puts == s.puts
  {
    var n, s1 := |s.gets|, Step(maxAge, s, BeginGet(uri));
    ThreeEvents(maxAge, s1, Probe(n), ReadBody(n), ReadMeta(n, now));
    assert s1.gets[n] == Getter(uri, Begun);
    var key := FileKey(uri);
    var s2 := Step(maxAge, s1, Probe(n));
    var s3 := Step(maxAge, s2, ReadBody(n));
    if key in s.files.bodies && key in s.files.metas {
      assert s2.gets[n] == Getter(uri, Probed);
      assert s3.gets[n] == Getter(uri, HasBody(s.files.bodies[key]));
    } else {
      assert s2.gets[n] == s3.gets[n] == Getter(uri, Returned(None));
    }
  }

  /** Damage that leaves metadata readable, with the right hash, is not noticed. */
  lemma ForgeryIsBelieved(maxAge: Option<real>, f: Files, uri: string, value: Bytes, contentType: string, other: string,
                          stored: real, now: real)
    requires !Expired(maxAge, stored, now)
    ensures var s := Sys(Put(f, uri, value, contentType, stored), [], [], []);
            var t := Step(maxAge, s, DamageMeta(FileKey(uri), Readable(Metadata(other, OfBytes(value), stored))));
            Get(t.files, maxAge, uri, now) == Some(CachedResponse(value, other))
  {
  }

  datatype Op = DoPut(uri: string, value: Bytes, contentType: string, now: real) | DoGet(uri: string, now: real)

  /** The answers of the file cache to a sequence of calls. */
  function Answers(f: Files, maxAge: Option<real>, ops: seq<Op>): seq<Option<CachedResponse>>
    decreases |ops|
  {
    if ops == [] then []
    else
      match ops[0]
      case DoPut(uri, value, contentType, now) => Answers(Put(f, uri, value, contentType, now), maxAge, ops[1..])
      case DoGet(uri, now) => [Get(f, maxAge, uri, now)] + Answers(f, maxAge, ops[1..])
  }

  /** The in-memory cache. */
  function PlainAnswers(m: map<string, CachedResponse>, ops: seq<Op>): seq<Option<CachedResponse>>
    decreases |ops|
  {
    if ops == [] then []
    else
      match ops[0]
      case DoPut(uri, value, contentType, _) => PlainAnswers(m[uri := CachedResponse(value, contentType)], ops[1..])
      case DoGet(uri, _) => [if uri in m then Some(m[uri]) else None] + PlainAnswers(m, ops[1..])
  }

  /** No call reads an entry older than the limit: `stored` gives the time of the last put of each URI. */
  predicate WithinAge(stored: map<string, real>, maxAge: Option<real>, ops: seq<Op>)
    decreases |ops|
  {
    ops == [] ||
    match ops[0]
    case DoPut(uri, _, _, now) => WithinAge(stored[uri := now], maxAge, ops[1..])
    case DoGet(uri, now) =>
      (uri in stored ==> !Expired(maxAge, stored[uri], now)) && WithinAge(stored, maxAge, ops[1..])
  }

  /** The files hold the map's entries, put at the recorded times. */
  ghost predicate Mirrors(f: Files, m: map<string, CachedResponse>, stored: map<string, real>) {
    && m.Keys == stored.Keys
    && (forall uri :: (uri in m <==> FileKey(uri) in f.bodies) && (uri in m <==> FileKey(uri) in f.metas))
    && (forall uri | uri in m ::
          f.bodies[FileKey(uri)] == m[uri].content
          && f.metas[FileKey(uri)] == Readable(Metadata(m[uri].contentType, OfBytes(m[uri].content), stored[uri])))
  }

  lemma {:induction false} MirrorAnswers(f: Files, m: map<string, CachedResponse>, stored: map<string, real>,
      maxAge: Option<real>, ops: seq<Op>)
    requires Mirrors(f, m, stored) && WithinAge(stored, maxAge, ops)
    ensures Answers(f, maxAge, ops) == PlainAnswers(m, ops)
    decreases |ops|
  {
    if ops != [] {
      match ops[0] {
        case DoPut(uri, value, contentType, now) =>
          MirrorAnswers(Put(f, uri, value, contentType, now), m[uri := CachedResponse(value, contentType)],
              stored[uri := now], maxAge, ops[1..]);
        case DoGet(uri, now) =>
          MirrorAnswers(f, m, stored, maxAge, ops[1..]);
      }
    }
  }

  /** Used one call at a time and within the age limit, the file cache answers as the plain map does. */
  lemma RefinesPlainCache(maxAge: Option<real>, ops: seq<Op>)
    requires WithinAge(map[], maxAge, ops)
    ensures Answers(Files(map[], map[]), maxAge, ops) == PlainAnswers(map[], ops)
  {
    MirrorAnswers(Files(map[], map[]), map[], map[], maxAge, ops);
  }

  /** An expired entry is never returned. */
  lemma ExpiredIsAbsent(f: Files, maxAge: Option<real>, uri: string, value: Bytes, contentType: string, storedAt: real,
      now: real)
    ensures Get(Put(f, uri, value, contentType, storedAt), maxAge, uri, now)
         == if maxAge != None && now > storedAt + maxAge.value then None else Some(CachedResponse(value, contentType))
  {
  }

  class RetrievalCache {
    var content: map<string, CachedResponse>

    constructor ()
      ensures content == map[]
    {
      content := map[];
    }

    method GetPlain(uri: string) returns (r: Option<CachedResponse>)
      ensures [r] == PlainAnswers(content, [DoGet(uri, 0.0)])
    {
      r := if uri in content then Some(content[uri]) else None;
    }

    method PutPlain(uri: string, value: Bytes, contentType: string)
      modifies this
      ensures content == old(content)[uri := CachedResponse(value, contentType)]
    {
      content := content[uri := CachedResponse(value, contentType)];
    }
  }

  class PersistentRetrievalCache {
    const maxAge: Option<real>
    var bodies: map<Digest, Bytes>
    var metas: map<Digest, MetaFile>

    ghost function State(): Files
      reads this
    {
      Files(bodies, metas)
    }

    constructor (maxAge: Option<real>)
      ensures this.maxAge == maxAge && State() == Files(map[], map[])
    {
      this.maxAge := maxAge;
      bodies, metas := map[], map[];
    }

    method GetFile(uri: string, now: real) returns (r: Option<CachedResponse>)
      ensures r == Get(State(), maxAge, uri, now)
    {
      var key := FileKey(uri);
      if key !in bodies || key !in metas {
        return None;
      }
      var content := bodies[key];
      if metas[key].Unreadable? {
        return None;
      }
      var meta := metas[key].meta;
      if Expired(maxAge, meta.storedAt, now) {
        return None;
      }
      if OfBytes(content) != meta.sha256 {
        return None;
      }
      return Some(CachedResponse(content, meta.contentType));
    }

    /** `stop` is how many of the two replacements happen before an error, if fewer than two. */
    method PutFile(uri: string, value: Bytes, contentType: string, now: real, stop: nat)
      modifies this
      ensures stop >= 2 ==> State() == Put(old(State()), uri, value, contentType, now)
      ensures stop == 0 ==> State() == old(State())
      ensures forall other | other != uri :: Get(State(), maxAge, other, now) == Get(old(State()), maxAge, other, now)
      ensures stop == 1 ==>
                var r := Get(State(), maxAge, uri, now);
                r.None?
                || (FileKey(uri) in old(metas) && old(metas)[FileKey(uri)].Readable?
                    && r.value == CachedResponse(value, old(metas)[FileKey(uri)].meta.contentType)
                    && old(metas)[FileKey(uri)].meta.sha256 == OfBytes(value))
    {
      var key := FileKey(uri);
      var meta := Readable(Metadata(contentType, OfBytes(value), now));
      if stop >= 1 {
        bodies := bodies[key := value];
      }
      if stop >= 2 {
        metas := metas[key := meta];
      }
    }
  }
}
