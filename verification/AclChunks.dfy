/** Access control lists as extra chunks of an entry: `faCl` names a platform, `faCe` adds an ACE. */
module AclChunks {
  import opened Basics
  import opened Octets
  import opened Utf8
  import opened Chunks
  import opened AclText

  const faCl := ChunkType(0x66, 0x61, 0x43, 0x6C)
  const faCe := ChunkType(0x66, 0x61, 0x43, 0x65)

  type Acls = map<Platform, seq<Ace>>

  datatype AclError = NotText | NotAce(error: AceError)

  type AclResult<+T> = Result<T, AclError>

  lemma AclTypesBearTheirNames()
    ensures Spells(faCl, "faCl") && Spells(faCe, "faCe")
  {
  }

  predicate IsAclChunk(c: RawChunk) {
    c.ty == faCl || c.ty == faCe
  }

  function PlatformOfBytes(s: Bytes): AclResult<Platform> {
    if TextOf(s).None? then Err(NotText) else Ok(PlatformOf(TextOf(s).value))
  }

  function QualifiedOfBytes(s: Bytes): AclResult<QualifiedAce> {
    if TextOf(s).None? then Err(NotText)
    else
      var q := QualifiedOf(TextOf(s).value);
      if q.Err? then Err(NotAce(q.error)) else Ok(q.value)
  }

  // ---------------------------------------------------------------- meaning

  /** An ACE and the platform whose list it belongs to. */
  datatype Placed = Placed(platform: Platform, ace: Ace)

  /** The same result with some ACEs in front. */
  function After(ps: seq<Placed>, r: AclResult<seq<Placed>>): AclResult<seq<Placed>> {
    if r.Err? then r else Ok(ps + r.value)
  }

  lemma AfterAfter(a: seq<Placed>, b: seq<Placed>, r: AclResult<seq<Placed>>)
    ensures After(a, After(b, r)) == After(a + b, r) && After([], r) == r
  {
    if r.Ok? {
      Assoc(a, b, r.value);
      assert [] + r.value == r.value;
    }
  }

  /** What the chunks say, in order, when `current` is the platform in force before them. */
  function Said(cs: seq<RawChunk>, current: Platform): AclResult<seq<Placed>> {
    if cs == [] then Ok([])
    else if cs[0].ty == faCl then
      var platform :- PlatformOfBytes(cs[0].data);
      Said(cs[1..], platform)
    else if cs[0].ty == faCe then
      var q :- QualifiedOfBytes(cs[0].data);
      After([Placed(PlatformOr(q.platform, current), q.ace)], Said(cs[1..], current))
    else
      Said(cs[1..], current)
  }

  /** The ACEs placed on a platform, in order. */
  function On(ps: seq<Placed>, platform: Platform): seq<Ace> {
    if ps == [] then []
    else (if ps[0].platform == platform then [ps[0].ace] else []) + On(ps[1..], platform)
  }

  function Platforms(ps: seq<Placed>): set<Platform> {
    set x <- ps :: x.platform
  }

  /** Each platform that something is placed on, with its list. */
  function Gathered(ps: seq<Placed>): Acls {
    map p | p in Platforms(ps) :: On(ps, p)
  }

  /** The map that `NormalEntryExt::acl` decodes. */
  function AclOf(cs: seq<RawChunk>): AclResult<Acls> {
    var said :- Said(cs, General);
    Ok(Gathered(said))
  }

  function ListOf(m: Acls, p: Platform): seq<Ace> {
    if p in m then m[p] else []
  }

  lemma {:induction false} OnAppend(a: seq<Placed>, b: seq<Placed>, platform: Platform)
    ensures On(a + b, platform) == On(a, platform) + On(b, platform)
  {
    if a == [] {
      assert a + b == b;
    } else {
      assert (a + b)[1..] == a[1..] + b;
      OnAppend(a[1..], b, platform);
      Assoc(if a[0].platform == platform then [a[0].ace] else [], On(a[1..], platform), On(b, platform));
    }
  }

  lemma {:induction false} OnMember(ps: seq<Placed>, platform: Platform, a: Ace)
    ensures a in On(ps, platform) <==> Placed(platform, a) in ps
  {
    if ps != [] {
      assert ps == [ps[0]] + ps[1..];
      OnMember(ps[1..], platform, a);
    }
  }

  lemma {:induction false} AbsentOn(ps: seq<Placed>, platform: Platform)
    ensures platform in Platforms(ps) <==> On(ps, platform) != []
  {
    if ps != [] {
      assert ps == [ps[0]] + ps[1..];
      AbsentOn(ps[1..], platform);
    }
  }

  lemma OnPush(ps: seq<Placed>, x: Placed, platform: Platform)
    ensures On(ps + [x], platform) == On(ps, platform) + (if x.platform == platform then [x.ace] else [])
  {
    OnAppend(ps, [x], platform);
    assert [x][1..] == [];
  }

  lemma GatheredPush(ps: seq<Placed>, x: Placed)
    ensures Gathered(ps + [x]) ==
            Gathered(ps)[x.platform := (if x.platform in Gathered(ps) then Gathered(ps)[x.platform] else []) + [x.ace]]
  {
    hide Platforms, On;
    var was, now := Gathered(ps), Gathered(ps + [x]);
    var expected := was[x.platform := (if x.platform in was then was[x.platform] else []) + [x.ace]];
    forall p ensures p in now <==> p in expected {
      OnPush(ps, x, p);
      AbsentOn(ps, p);
      AbsentOn(ps + [x], p);
    }
    forall p <- expected ensures now[p] == expected[p] {
      OnPush(ps, x, p);
      AbsentOn(ps, p);
    }
    assert now.Keys == expected.Keys;
  }

  /** `NormalEntryExt::acl`. */
  method Acl(extra: seq<RawChunk>) returns (r: AclResult<Acls>)
    ensures r == AclOf(extra)
  {
    hide PlatformOfBytes, QualifiedOfBytes, Gathered, After;
    var acls: Acls := map[];
    var platform := General;
    ghost var said: seq<Placed> := [];
    EmptyGathered();
    AfterAfter([], [], Said(extra, General));
    assert extra[0..] == extra;
    for i := 0 to |extra|
      invariant acls == Gathered(said)
      invariant Said(extra, General) == After(said, Said(extra[i..], platform))
    {
      assert extra[i..][1..] == extra[i + 1..];
      AfterErr(said);
      if extra[i].ty == faCl {
        platform :- PlatformOfBytes(extra[i].data);
      } else if extra[i].ty == faCe {
        var q :- QualifiedOfBytes(extra[i].data);
        var p := PlatformOr(q.platform, platform);
        GatheredPush(said, Placed(p, q.ace));
        AfterAfter(said, [Placed(p, q.ace)], Said(extra[i + 1..], platform));
        acls := acls[p := (if p in acls then acls[p] else []) + [q.ace]];
        said := said + [Placed(p, q.ace)];
      }
    }
    AfterNothing(said);
    return Ok(acls);
  }

  lemma AfterErr(ps: seq<Placed>)
    ensures forall e :: After(ps, Err(e)) == Err(e)
  {
  }

  lemma AfterNothing(ps: seq<Placed>)
    ensures After(ps, Ok([])) == Ok(ps)
  {
    assert ps + [] == ps;
  }

  lemma EmptyGathered()
    ensures Gathered([]) == map[]
  {
  }

  /** What is decoded can be encoded again without loss, and no list in it is empty. */
  predicate IsPlainAcls(m: Acls) {
    forall p <- m :: m[p] != [] && IsCanonical(p) && forall a <- m[p] :: IsPlainAce(a)
  }

  lemma {:induction false} SaidIsPlain(cs: seq<RawChunk>, current: Platform)
    requires IsCanonical(current) && Said(cs, current).Ok?
    ensures forall x <- Said(cs, current).value :: IsCanonical(x.platform) && IsPlainAce(x.ace)
  {
    hide QualifiedOf, PlatformOf, IsPlainAce, IsCanonical, TextOf;
    if cs != [] {
      var rest := if cs[0].ty == faCl then PlatformOfBytes(cs[0].data).value else current;
      if TextOf(cs[0].data).Some? {
        PlatformRoundTripIff(General, TextOf(cs[0].data).value);
        ReadQualifiedIsPlain(TextOf(cs[0].data).value);
      }
      SaidIsPlain(cs[1..], rest);
    }
  }

  lemma DecodedIsPlain(cs: seq<RawChunk>)
    requires AclOf(cs).Ok?
    ensures IsPlainAcls(AclOf(cs).value)
  {
    var said := Said(cs, General).value;
    SaidIsPlain(cs, General);
    forall p <- Gathered(said) ensures On(said, p) != [] && forall a <- On(said, p) :: IsPlainAce(a) {
      var x :| x in said && x.platform == p;
      OnMember(said, p, x.ace);
      forall a <- On(said, p) ensures IsPlainAce(a) {
        OnMember(said, p, a);
      }
    }
  }

  // ---------------------------------------------------------------- encoding

  function AceChunk(a: Ace): RawChunk {
    FromData(faCe, TextBytes(AceText(a)))
  }

  function PlatformChunk(p: Platform): RawChunk {
    FromData(faCl, TextBytes(PlatformText(p)))
  }

  function AceChunks(aces: seq<Ace>): seq<RawChunk> {
    if aces == [] then [] else [AceChunk(aces[0])] + AceChunks(aces[1..])
  }

  /** The chunks of a map whose platforms are met in this order. */
  function ChunksOf(order: seq<Platform>, m: Acls): seq<RawChunk>
    requires forall p <- order :: p in m
  {
    if order == [] then []
    else [PlatformChunk(order[0])] + AceChunks(m[order[0]]) + ChunksOf(order[1..], m)
  }

  /** An order in which a map's iterator may meet its keys. */
  predicate Orders(order: seq<Platform>, m: Acls) {
    (forall p <- order :: p in m) && (forall p <- m :: p in order) &&
    forall i, j :: 0 <= i < j < |order| ==> order[i] != order[j]
  }

  /** The map without its empty lists. */
  function NonEmpty(m: Acls): Acls {
    map p | p in m && m[p] != [] :: m[p]
  }

  /** The ACEs of the map, platform by platform. */
  function Listed(order: seq<Platform>, m: Acls): seq<Placed>
    requires forall p <- order :: p in m
  {
    if order == [] then [] else OnePlatform(order[0], m[order[0]]) + Listed(order[1..], m)
  }

  function OnePlatform(p: Platform, aces: seq<Ace>): seq<Placed> {
    if aces == [] then [] else [Placed(p, aces[0])] + OnePlatform(p, aces[1..])
  }

  predicate NoAclChunks(cs: seq<RawChunk>) {
    forall c <- cs :: !IsAclChunk(c)
  }

  lemma {:induction false} OthersSaid(others: seq<RawChunk>, current: Platform)
    requires NoAclChunks(others)
    ensures Said(others, current) == Ok([])
  {
    hide PlatformOfBytes, QualifiedOfBytes;
    if others != [] {
      assert !IsAclChunk(others[0]);
      OthersSaid(others[1..], current);
    }
  }

  lemma PlatformChunkSaid(p: Platform, rest: seq<RawChunk>, current: Platform)
    ensures Said([PlatformChunk(p)] + rest, current) == Said(rest, PlatformOf(PlatformText(p)))
  {
    hide PlatformOf, PlatformText, QualifiedOfBytes;
    TextRoundTrip(PlatformText(p));
    assert ([PlatformChunk(p)] + rest)[1..] == rest;
  }

  lemma AceChunkSaid(a: Ace, rest: seq<RawChunk>, current: Platform)
    requires IsPlainAce(a)
    ensures Said([AceChunk(a)] + rest, current) == After([Placed(current, a)], Said(rest, current))
  {
    hide AceText, QualifiedOf, TextOf, TextBytes, IsPlainAce, After, PlatformOfBytes;
    TextRoundTrip(AceText(a));
    UnqualifiedRoundTrip(a);
    assert ([AceChunk(a)] + rest)[1..] == rest;
  }

  lemma {:induction false} AceChunksSaid(aces: seq<Ace>, rest: seq<RawChunk>, current: Platform)
    requires forall a <- aces :: IsPlainAce(a)
    ensures Said(AceChunks(aces) + rest, current) == After(OnePlatform(current, aces), Said(rest, current))
  {
    hide IsPlainAce, AceChunk, Said, After;
    if aces == [] {
      assert AceChunks(aces) + rest == rest;
      AfterAfter([], [], Said(rest, current));
    } else {
      var tail := AceChunks(aces[1..]) + rest;
      assert AceChunks(aces) + rest == [AceChunk(aces[0])] + tail;
      AceChunkSaid(aces[0], tail, current);
      AceChunksSaid(aces[1..], rest, current);
      AfterAfter([Placed(current, aces[0])], OnePlatform(current, aces[1..]), Said(rest, current));
    }
  }

  /** Every list that is not empty can be encoded without loss. */
  predicate IsStorable(m: Acls) {
    forall p <- m :: m[p] != [] ==> IsCanonical(p) && forall a <- m[p] :: IsPlainAce(a)
  }

  lemma {:induction false} ChunksSaid(
    order: seq<Platform>, m: Acls, others: seq<RawChunk>, current: Platform)
    requires (forall p <- order :: p in m) && IsStorable(m) && NoAclChunks(others)
    ensures Said(ChunksOf(order, m) + others, current) == Ok(Listed(order, m))
  {
    hide IsPlainAce, PlatformChunk, PlatformOf, PlatformText, IsCanonical, Said, AceChunks, OnePlatform,
      NoAclChunks, ChunksOf, Listed, After;
    if order == [] {
      NoChunks(m, others);
      OthersSaid(others, current);
    } else {
      var p, rest := order[0], ChunksOf(order[1..], m) + others;
      var read := PlatformOf(PlatformText(p));
      FirstChunks(order, m, others);
      PlatformChunkSaid(p, AceChunks(m[p]) + rest, current);
      AceChunksSaid(m[p], rest, read);
      ChunksSaid(order[1..], m, others, read);
      PlatformRoundTripIff(p, "");
      SamePlatform(read, p, m[p]);
      AfterOk(OnePlatform(p, m[p]), Listed(order[1..], m));
    }
  }

  lemma NoChunks(m: Acls, others: seq<RawChunk>)
    ensures ChunksOf([], m) + others == others && Listed([], m) == []
  {
  }

  /** The chunks and the ACEs of the first platform, and those of the others. */
  lemma FirstChunks(order: seq<Platform>, m: Acls, others: seq<RawChunk>)
    requires order != [] && forall p <- order :: p in m
    ensures var p := order[0];
      ChunksOf(order, m) + others ==
        [PlatformChunk(p)] + (AceChunks(m[p]) + (ChunksOf(order[1..], m) + others)) &&
      Listed(order, m) == OnePlatform(p, m[p]) + Listed(order[1..], m)
  {
    hide PlatformChunk, AceChunks, OnePlatform;
  }

  lemma AfterOk(ps: seq<Placed>, more: seq<Placed>)
    ensures After(ps, Ok(more)) == Ok(ps + more)
  {
  }

  lemma SamePlatform(p: Platform, q: Platform, aces: seq<Ace>)
    requires aces != [] ==> p == q
    ensures OnePlatform(p, aces) == OnePlatform(q, aces)
  {
  }

  lemma {:induction false} OnOnePlatform(p: Platform, aces: seq<Ace>, q: Platform)
    ensures On(OnePlatform(p, aces), q) == if p == q then aces else []
  {
    if aces != [] {
      OnOnePlatform(p, aces[1..], q);
    }
  }

  lemma {:induction false} OnListed(order: seq<Platform>, m: Acls, p: Platform)
    requires forall q <- order :: q in m
    requires forall i, j :: 0 <= i < j < |order| ==> order[i] != order[j]
    ensures On(Listed(order, m), p) == if p in order then m[p] else []
  {
    if order != [] {
      var rest := order[1..];
      assert order == [order[0]] + rest;
      OnListed(rest, m, p);
      OnOnePlatform(order[0], m[order[0]], p);
      OnAppend(OnePlatform(order[0], m[order[0]]), Listed(rest, m), p);
      assert p == order[0] ==> p !in rest;
    }
  }

  lemma GatheredListed(order: seq<Platform>, m: Acls)
    requires Orders(order, m)
    ensures Gathered(Listed(order, m)) == NonEmpty(m)
  {
    hide Platforms, On, Listed;
    var ps := Listed(order, m);
    forall p ensures p in Platforms(ps) <==> p in NonEmpty(m)
    {
      OnListed(order, m, p);
      AbsentOn(ps, p);
    }
    forall p <- Gathered(ps) ensures On(ps, p) == m[p] {
      OnListed(order, m, p);
    }
    assert Gathered(ps).Keys == NonEmpty(m).Keys;
  }

  /**
   * A map written as chunks, in whatever order its platforms are met and before whatever other
   * extra chunks, decodes to the map without its empty lists, exactly when every list that is
   * not empty has a canonical platform and identifiers that are non-empty and free of colons.
   */
  lemma EncodeDecodeIff(order: seq<Platform>, m: Acls, others: seq<RawChunk>)
    requires Orders(order, m) && NoAclChunks(others)
    ensures AclOf(ChunksOf(order, m) + others) == Ok(NonEmpty(m)) <==> IsStorable(m)
  {
    hide IsPlainAce, IsCanonical, Said, Gathered, ChunksOf;
    var cs := ChunksOf(order, m) + others;
    if IsStorable(m) {
      ChunksSaid(order, m, others, General);
      GatheredListed(order, m);
    } else if AclOf(cs) == Ok(NonEmpty(m)) {
      DecodedIsPlain(cs);
      assert IsPlainAcls(NonEmpty(m));
      forall p <- m | m[p] != [] ensures IsCanonical(p) && forall a <- m[p] :: IsPlainAce(a) {
        assert p in NonEmpty(m);
      }
      assert false;
    }
  }

  // ---------------------------------------------------------------- one more chunk

  /** The platform in force after some chunks: that of the last platform chunk among them. */
  function PlatformAfter(cs: seq<RawChunk>, start: Platform): Platform {
    if cs == [] then start
    else
      var last := cs[|cs| - 1];
      if last.ty == faCl && PlatformOfBytes(last.data).Ok? then PlatformOfBytes(last.data).value
      else PlatformAfter(cs[..|cs| - 1], start)
  }

  lemma PlatformAfterOne(c: RawChunk, cs: seq<RawChunk>, start: Platform)
    ensures PlatformAfter([c], start) ==
      if c.ty == faCl && PlatformOfBytes(c.data).Ok? then PlatformOfBytes(c.data).value else start
  {
    hide PlatformOfBytes;
    assert [c][..0] == [];
  }

  lemma {:induction false} PlatformAfterCons(c: RawChunk, cs: seq<RawChunk>, start: Platform)
    ensures PlatformAfter([c] + cs, start) == PlatformAfter(cs, PlatformAfter([c], start))
  {
    hide PlatformOfBytes;
    var all := [c] + cs;
    if cs == [] {
      assert all == [c];
    } else {
      assert all[|all| - 1] == cs[|cs| - 1] && all[..|all| - 1] == [c] + cs[..|cs| - 1];
      PlatformAfterCons(c, cs[..|cs| - 1], start);
    }
  }

  lemma {:induction false} SaidAppend(a: seq<RawChunk>, b: seq<RawChunk>, start: Platform)
    ensures Said(a + b, start) ==
      if Said(a, start).Err? then Said(a, start)
      else After(Said(a, start).value, Said(b, PlatformAfter(a, start)))
    decreases |a|
  {
    hide PlatformOfBytes, QualifiedOfBytes, After, PlatformAfter;
    if a == [] {
      assert a + b == b;
      AfterAfter([], [], Said(b, start));
      StartsThere(start);
    } else {
      var c, rest := a[0], a[1..];
      assert (a + b)[1..] == rest + b && a == [c] + rest;
      PlatformAfterCons(c, rest, start);
      PlatformAfterOne(c, rest, start);
      if c.ty == faCl {
        if PlatformOfBytes(c.data).Ok? {
          SaidAppend(rest, b, PlatformOfBytes(c.data).value);
        }
      } else {
        SaidAppend(rest, b, start);
        if c.ty == faCe && QualifiedOfBytes(c.data).Ok? {
          var q := QualifiedOfBytes(c.data).value;
          var x := Placed(PlatformOr(q.platform, start), q.ace);
          AfterErr([x]);
          if Said(rest, start).Ok? {
            AfterAfter([x], Said(rest, start).value, Said(b, PlatformAfter(rest, start)));
            AfterOk([x], Said(rest, start).value);
          }
        }
      }
    }
  }

  lemma StartsThere(start: Platform)
    ensures PlatformAfter([], start) == start
  {
  }

  lemma ListOfGathered(ps: seq<Placed>, p: Platform)
    ensures ListOf(Gathered(ps), p) == On(ps, p)
  {
    hide On;
    AbsentOn(ps, p);
  }

  /**
   * One more ACE chunk, anywhere: its ACE joins the list of the platform that it names, or else
   * of the one in force, right after what was placed there before it. All other lists and the
   * platform in force stay as they were, so it decodes exactly when the rest does.
   */
  lemma AceChunkPlaces(a: seq<RawChunk>, c: RawChunk, b: seq<RawChunk>, q: QualifiedAce)
    requires c.ty == faCe && QualifiedOfBytes(c.data) == Ok(q)
    ensures AclOf(a + [c] + b).Ok? <==> AclOf(a + b).Ok?
    ensures AclOf(a + b).Ok? ==> AclOf(a).Ok?
    ensures AclOf(a + b).Ok? ==>
      var target := PlatformOr(q.platform, PlatformAfter(a, General));
      forall p ::
        var list := ListOf(AclOf(a + b).value, p);
        var first := |ListOf(AclOf(a).value, p)|;
        first <= |list| && ListOf(AclOf(a).value, p) == list[..first] &&
        ListOf(AclOf(a + [c] + b).value, p) ==
          if p == target then list[..first] + [q.ace] + list[first..] else list
    ensures PlatformAfter(a + [c], General) == PlatformAfter(a, General)
  {
    hide PlatformOfBytes, QualifiedOfBytes, Said, Gathered, On, ListOf;
    assert (a + [c])[..|a|] == a && faCe != faCl;
    var now := PlatformAfter(a, General);
    var x := Placed(PlatformOr(q.platform, now), q.ace);
    SaidAppend(a, b, General);
    SaidAppend(a, [c] + b, General);
    assert a + [c] + b == a + ([c] + b);
    AceChunkFirst(c, b, q, now);
    if Said(a, General).Ok? && Said(b, now).Ok? {
      var before, after := Said(a, General).value, Said(b, now).value;
      forall p ensures
        var list := On(before + after, p);
        |On(before, p)| <= |list| && On(before, p) == list[..|On(before, p)|] &&
        On(before + ([x] + after), p) ==
          if p == x.platform then list[..|On(before, p)|] + [x.ace] + list[|On(before, p)|..] else list
      {
        OnAppend(before, after, p);
        OnAppend(before, [x] + after, p);
        OnAppend([x], after, p);
        OnPush([], x, p);
        assert [] + [x] == [x];
        OnNothing(p);
      }
      forall p
        ensures ListOf(Gathered(before), p) == On(before, p)
        ensures ListOf(Gathered(before + after), p) == On(before + after, p)
        ensures ListOf(Gathered(before + ([x] + after)), p) == On(before + ([x] + after), p)
      {
        ListOfGathered(before, p);
        ListOfGathered(before + after, p);
        ListOfGathered(before + ([x] + after), p);
      }
    }
  }

  lemma OnNothing(p: Platform)
    ensures On([], p) == []
  {
  }

  lemma AceChunkFirst(c: RawChunk, b: seq<RawChunk>, q: QualifiedAce, now: Platform)
    requires c.ty == faCe && QualifiedOfBytes(c.data) == Ok(q)
    ensures Said([c] + b, now) == After([Placed(PlatformOr(q.platform, now), q.ace)], Said(b, now))
  {
    hide PlatformOfBytes, QualifiedOfBytes;
    assert ([c] + b)[1..] == b && faCe != faCl;
  }

  /** An ACE that is stored with its platform says it, and one stored without says none. */
  lemma StoredAceReads(q: QualifiedAce)
    ensures IsPlainQualified(q) ==>
      QualifiedOfBytes(TextBytes(QualifiedText(q))) == Ok(QualifiedAce(Some(PlatformOr(q.platform, General)), q.ace))
    ensures IsPlainAce(q.ace) ==> QualifiedOfBytes(TextBytes(AceText(q.ace))) == Ok(QualifiedAce(None, q.ace))
  {
    hide QualifiedOf, QualifiedText, AceText, TextOf, TextBytes, IsPlainQualified, IsPlainAce;
    TextRoundTrip(QualifiedText(q));
    TextRoundTrip(AceText(q.ace));
    QualifiedRoundTripIff(q);
    if IsPlainAce(q.ace) {
      UnqualifiedRoundTrip(q.ace);
    }
  }

  /**
   * The self-describing form: an ACE chunk that names its platform adds to that platform's list,
   * whatever platform is in force where it stands.
   */
  lemma SelfDescribingAce(a: seq<RawChunk>, c: RawChunk, b: seq<RawChunk>, p: Platform, ace: Ace)
    requires c.ty == faCe && c.data == TextBytes(QualifiedText(QualifiedAce(Some(p), ace)))
    requires IsPlainQualified(QualifiedAce(Some(p), ace)) && AclOf(a + b).Ok?
    ensures AclOf(a + [c] + b).Ok? && AclOf(a).Ok?
    ensures forall x :: x != p ==> ListOf(AclOf(a + [c] + b).value, x) == ListOf(AclOf(a + b).value, x)
    ensures var list, first := ListOf(AclOf(a + b).value, p), |ListOf(AclOf(a).value, p)|;
      first <= |list| && ListOf(AclOf(a + [c] + b).value, p) == list[..first] + [ace] + list[first..]
  {
    hide AclOf, ListOf, QualifiedOfBytes, QualifiedText, TextBytes, IsPlainQualified, PlatformAfter;
    var q := QualifiedAce(Some(p), ace);
    StoredAceReads(q);
    AceChunkPlaces(a, c, b, q);
  }

  /** A chunk that is neither a platform nor an ACE is passed over. */
  lemma OtherChunkPassedOver(a: seq<RawChunk>, c: RawChunk, b: seq<RawChunk>)
    requires !IsAclChunk(c)
    ensures AclOf(a + [c] + b) == AclOf(a + b)
  {
    hide PlatformOfBytes, QualifiedOfBytes, Gathered, After;
    assert a + [c] + b == a + ([c] + b) && ([c] + b)[1..] == b;
    SaidAppend(a, b, General);
    SaidAppend(a, [c] + b, General);
  }

  // ---------------------------------------------------------------- what does not decode

  /** A platform chunk must be text, and an ACE chunk the text of an ACE. */
  predicate IsReadable(c: RawChunk) {
    (c.ty == faCl ==> IsUtf8(c.data)) &&
    (c.ty == faCe ==> IsUtf8(c.data) && TextOf(c.data).Some? && QualifiedOf(TextOf(c.data).value).Ok?)
  }

  predicate AllReadable(cs: seq<RawChunk>) {
    forall c <- cs :: IsReadable(c)
  }

  lemma ReadableCons(c: RawChunk, cs: seq<RawChunk>)
    ensures AllReadable([c] + cs) <==> IsReadable(c) && AllReadable(cs)
  {
    hide IsReadable;
    var all := [c] + cs;
    assert all[0] == c && forall x <- cs :: x in all;
  }

  lemma {:induction false} SaidReadable(cs: seq<RawChunk>, start: Platform)
    ensures Said(cs, start).Ok? <==> AllReadable(cs)
    decreases |cs|
  {
    hide TextOf, IsUtf8, QualifiedOf, PlatformOf, PlatformText, AllReadable;
    if cs == [] {
      NothingToRead();
    } else {
      var c := cs[0];
      assert cs == [c] + cs[1..];
      ReadableCons(c, cs[1..]);
      BytesRoundTrip(c.data);
      SaidReadable(cs[1..], if c.ty == faCl && TextOf(c.data).Some? then PlatformOf(TextOf(c.data).value) else start);
    }
  }

  lemma NothingToRead()
    ensures AllReadable([])
  {
  }

  /** ACLs decode exactly when each of their chunks is readable; else the first that is not decides. */
  lemma AclVerdict(a: seq<RawChunk>, c: RawChunk, b: seq<RawChunk>)
    ensures AclOf(a).Ok? <==> AllReadable(a)
    ensures AllReadable(a) && IsAclChunk(c) && !IsUtf8(c.data) ==> AclOf(a + [c] + b) == Err(NotText)
    ensures AllReadable(a) && c.ty == faCe && IsUtf8(c.data) && !IsReadable(c) ==>
      TextOf(c.data).Some? && QualifiedOf(TextOf(c.data).value).Err? &&
      AclOf(a + [c] + b) == Err(NotAce(QualifiedOf(TextOf(c.data).value).error))
  {
    hide TextOf, IsUtf8, QualifiedOf, PlatformOf, Gathered, After, PlatformAfter, AllReadable;
    SaidReadable(a, General);
    BytesRoundTrip(c.data);
    SaidAppend(a, [c] + b, General);
    assert a + [c] + b == a + ([c] + b);
    if Said(a, General).Ok? {
      AfterErr(Said(a, General).value);
    }
  }
}
