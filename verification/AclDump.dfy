/** The ACL dump: printing it, reading it, and restoring entries from it. */
module AclDump {
  import opened Basics
  import opened Words
  import opened AclText
  import opened AclChunks
  import opened AclEditing

  // ---------------------------------------------------------------- lines

  /** `println!` on each line. */
  function Printed(lines: seq<string>): string {
    if lines == [] then "" else lines[0] + "\n" + Printed(lines[1..])
  }

  function WithoutReturn(s: string): string {
    if s != "" && s[|s| - 1] == '\r' then s[..|s| - 1] else s
  }

  function FromLinePieces(pieces: seq<string>): seq<string> {
    if |pieces| <= 1 then (if pieces == [] || pieces[0] == "" then [] else pieces)
    else [WithoutReturn(pieces[0])] + FromLinePieces(pieces[1..])
  }

  /** `BufRead::lines`: a line ends with a line feed, or with a return and a line feed. */
  function LinesOf(text: string): seq<string> {
    FromLinePieces(Split(text, '\n'))
  }

  /** Text that is the same after it has been printed as a line and read back. */
  predicate IsLine(s: string) {
    '\n' !in s && WithoutReturn(s) == s
  }

  predicate NoFeeds(lines: seq<string>) {
    forall l <- lines :: '\n' !in l
  }

  function Chomped(lines: seq<string>): seq<string> {
    if lines == [] then [] else [WithoutReturn(lines[0])] + Chomped(lines[1..])
  }

  /** Printed lines are read back, each without the return that it may end in. */
  lemma {:induction false} LinesRoundTrip(lines: seq<string>)
    requires NoFeeds(lines)
    ensures LinesOf(Printed(lines)) == Chomped(lines)
  {
    hide Split, SplitOnce, WithoutReturn;
    if lines == [] {
      SplitFree("", '\n');
    } else {
      var l, rest := lines[0], Printed(lines[1..]);
      assert Free(l, '\n');
      SplitAt(l, '\n', rest);
      LinesRoundTrip(lines[1..]);
      assert ([l] + Split(rest, '\n'))[1..] == Split(rest, '\n');
    }
  }

  /**
   * A line ends at the first line feed, together with a return right before that. What follows
   * the last line feed is a line only if there is anything, and keeps its return.
   */
  lemma LinesEnd(line: string, rest: string)
    requires '\n' !in line
    ensures LinesOf(line + "\r\n" + rest) == [line] + LinesOf(rest)
    ensures line == "" || line[|line| - 1] != '\r' ==> LinesOf(line + "\n" + rest) == [line] + LinesOf(rest)
    ensures LinesOf(line) == if line == "" then [] else [line]
  {
    hide Split;
    var returned := line + "\r";
    assert WithoutReturn(returned) == line;
    assert returned + ['\n'] + rest == line + "\r\n" + rest;
    OneLine(returned, rest);
    OneLine(line, rest);
    SplitFree(line, '\n');
  }

  lemma OneLine(line: string, rest: string)
    requires '\n' !in line
    ensures LinesOf(line + ['\n'] + rest) == [WithoutReturn(line)] + LinesOf(rest)
  {
    hide Split, WithoutReturn;
    SplitAt(line, '\n', rest);
    assert ([line] + Split(rest, '\n'))[1..] == Split(rest, '\n');
  }

  lemma {:induction false} ChompedAppend(a: seq<string>, b: seq<string>)
    ensures Chomped(a + b) == Chomped(a) + Chomped(b)
  {
    hide WithoutReturn;
    if a == [] {
      assert a + b == b;
    } else {
      assert (a + b)[1..] == a[1..] + b;
      ChompedAppend(a[1..], b);
    }
  }

  predicate AllLines(lines: seq<string>) {
    forall l <- lines :: IsLine(l)
  }

  lemma {:induction false} ChompedLines(lines: seq<string>)
    requires AllLines(lines)
    ensures Chomped(lines) == lines && NoFeeds(lines)
  {
    hide WithoutReturn;
    if lines != [] {
      assert IsLine(lines[0]);
      ChompedLines(lines[1..]);
      assert lines == [lines[0]] + lines[1..];
    }
  }

  // ---------------------------------------------------------------- reading

  function StripPrefix(s: string, prefix: string): Option<string> {
    if |prefix| <= |s| && s[..|prefix|] == prefix then Some(s[|prefix|..]) else None
  }

  datatype Kind = Blank | FileLine(path: string) | Ignored | PlatformLine(platform: Platform) | AceLine

  /** What a line of a dump is, tested in this order. */
  function KindOf(line: string): Kind {
    if line == "" then Blank
    else if StripPrefix(line, "# file: ").Some? then FileLine(StripPrefix(line, "# file: ").value)
    else if StripPrefix(line, "# owner: ").Some? || StripPrefix(line, "# group: ").Some? then Ignored
    else if StripPrefix(line, "# platform: ").Some? then
      PlatformLine(PlatformOf(StripPrefix(line, "# platform: ").value))
    else AceLine
  }

  /** The parser's position: the file and platform that an ACE line would belong to. */
  datatype Cursor = Cursor(file: Option<string>, platform: Platform)

  /** An ACE, its platform and its file. */
  datatype Filed = Filed(file: string, placed: Placed)

  type Told = AceResult<seq<Filed>>

  function Then(fs: seq<Filed>, r: Told): Told {
    if r.Err? then r else Ok(fs + r.value)
  }

  /** What the lines say from a position on; ACE lines before any file line say nothing. */
  function Tells(lines: seq<string>, c: Cursor): Told {
    if lines == [] then Ok([])
    else
      match KindOf(lines[0])
      case Blank | Ignored => Tells(lines[1..], c)
      case FileLine(path) => Tells(lines[1..], c.(file := Some(path)))
      case PlatformLine(p) => Tells(lines[1..], c.(platform := p))
      case AceLine =>
        if c.file.None? then Tells(lines[1..], c)
        else
          var ace :- AceOf(lines[0]);
          Then([Filed(c.file.value, Placed(c.platform, ace))], Tells(lines[1..], c))
  }

  const START := Cursor(None, General)

  type Restored = map<string, Acls>

  function Files(fs: seq<Filed>): set<string> {
    set x <- fs :: x.file
  }

  function OfFile(fs: seq<Filed>, file: string): seq<Placed> {
    if fs == [] then []
    else (if fs[0].file == file then [fs[0].placed] else []) + OfFile(fs[1..], file)
  }

  function Collected(fs: seq<Filed>): Restored {
    map f | f in Files(fs) :: Gathered(OfFile(fs, f))
  }

  function ReadDump(text: string): AceResult<Restored> {
    var told :- Tells(LinesOf(text), START);
    Ok(Collected(told))
  }

  lemma ThenThen(a: seq<Filed>, b: seq<Filed>, r: Told)
    ensures Then(a, Then(b, r)) == Then(a + b, r) && Then([], r) == r
    ensures Then(a, Ok([])) == Ok(a)
    ensures forall e :: Then(a, Err(e)) == Err(e)
  {
    if r.Ok? {
      Assoc(a, b, r.value);
      assert [] + r.value == r.value;
    }
    assert a + [] == a;
  }

  lemma {:induction false} OfFileAppend(a: seq<Filed>, b: seq<Filed>, file: string)
    ensures OfFile(a + b, file) == OfFile(a, file) + OfFile(b, file)
  {
    if a == [] {
      assert a + b == b;
    } else {
      assert (a + b)[1..] == a[1..] + b;
      OfFileAppend(a[1..], b, file);
      Assoc(if a[0].file == file then [a[0].placed] else [], OfFile(a[1..], file), OfFile(b, file));
    }
  }

  lemma {:induction false} AbsentFile(fs: seq<Filed>, file: string)
    ensures file in Files(fs) <==> OfFile(fs, file) != []
  {
    if fs != [] {
      assert fs == [fs[0]] + fs[1..];
      AbsentFile(fs[1..], file);
    }
  }

  lemma OfFilePush(fs: seq<Filed>, x: Filed, file: string)
    ensures OfFile(fs + [x], file) == OfFile(fs, file) + (if x.file == file then [x.placed] else [])
  {
    OfFileAppend(fs, [x], file);
    assert [x][1..] == [];
  }

  function Push(m: Acls, x: Placed): Acls {
    m[x.platform := (if x.platform in m then m[x.platform] else []) + [x.ace]]
  }

  lemma CollectedPush(fs: seq<Filed>, x: Filed)
    ensures Collected(fs + [x]) ==
            Collected(fs)[x.file := Push(if x.file in Collected(fs) then Collected(fs)[x.file] else map[], x.placed)]
  {
    hide Files, OfFile, Gathered;
    var was, now := Collected(fs), Collected(fs + [x]);
    var expected := was[x.file := Push(if x.file in was then was[x.file] else map[], x.placed)];
    EmptyGathered();
    forall f ensures f in now <==> f in expected {
      OfFilePush(fs, x, f);
      AbsentFile(fs, f);
      AbsentFile(fs + [x], f);
    }
    forall f <- expected ensures now[f] == expected[f] {
      OfFilePush(fs, x, f);
      AbsentFile(fs, f);
      GatheredPush(OfFile(fs, f), x.placed);
      assert OfFile(fs, f) + [] == OfFile(fs, f);
    }
    assert now.Keys == expected.Keys;
  }

  lemma NothingCollected()
    ensures Collected([]) == map[]
  {
  }

  /** `parse_acl_dump`. */
  method ParseAclDump(text: string) returns (r: AceResult<Restored>)
    ensures r == ReadDump(text)
  {
    hide LinesOf, KindOf, Collected, AceOf, Then, Push;
    var result: Restored := map[];
    var file: Option<string> := None;
    var platform := General;
    var lines := LinesOf(text);
    ghost var told: seq<Filed> := [];
    NothingCollected();
    ThenThen([], [], Tells(lines, START));
    assert lines[0..] == lines;
    for i := 0 to |lines|
      invariant result == Collected(told)
      invariant Tells(lines, START) == Then(told, Tells(lines[i..], Cursor(file, platform)))
    {
      assert lines[i..][1..] == lines[i + 1..];
      var kind := KindOf(lines[i]);
      ghost var rest := Tells(lines[i + 1..], Cursor(file, platform));
      ThenThen(told, [], rest);
      if kind.FileLine? {
        file := Some(kind.path);
      } else if kind.PlatformLine? {
        platform := kind.platform;
      } else if kind.AceLine? && file.Some? {
        var ace := ParseAce(lines[i]);
        if ace.Err? {
          return Err(ace.error);
        }
        var x := Filed(file.value, Placed(platform, ace.value));
        CollectedPush(told, x);
        ThenThen(told, [x], rest);
        result := result[x.file := Push(if x.file in result then result[x.file] else map[], x.placed)];
        told := told + [x];
      }
    }
    ThenThen(told, [], Ok([]));
    return Ok(result);
  }

  // ---------------------------------------------------------------- printing

  /** One entry's part of the dump; `order` is how its ACL map's iterator meets the platforms. */
  datatype Listing = Listing(name: string, owner: string, group: string, acls: Acls, order: seq<Platform>)

  function AceLines(aces: seq<Ace>): seq<string> {
    if aces == [] then [] else [AceText(aces[0])] + AceLines(aces[1..])
  }

  function PlatformLines(order: seq<Platform>, acls: Acls): seq<string>
    requires forall p <- order :: p in acls
  {
    if order == [] then []
    else ["# platform: " + PlatformText(order[0])] + AceLines(acls[order[0]]) + PlatformLines(order[1..], acls)
  }

  function ListingLines(l: Listing): seq<string>
    requires Orders(l.order, l.acls)
  {
    ["# file: " + l.name, "# owner: " + l.owner, "# group: " + l.group]
    + PlatformLines(l.order, l.acls) + [""]
  }

  function DumpLines(ls: seq<Listing>): seq<string>
    requires forall l <- ls :: Orders(l.order, l.acls)
  {
    if ls == [] then [] else ListingLines(ls[0]) + DumpLines(ls[1..])
  }

  // ---------------------------------------------------------------- a printed dump, read

  function Tagged(file: string, ps: seq<Placed>): seq<Filed> {
    if ps == [] then [] else [Filed(file, ps[0])] + Tagged(file, ps[1..])
  }

  function ListingSays(l: Listing): seq<Filed>
    requires Orders(l.order, l.acls)
  {
    Tagged(l.name, Listed(l.order, l.acls))
  }

  function DumpSays(ls: seq<Listing>): seq<Filed>
    requires forall l <- ls :: Orders(l.order, l.acls)
  {
    if ls == [] then [] else ListingSays(ls[0]) + DumpSays(ls[1..])
  }

  lemma FixedKinds(s: string)
    ensures KindOf("") == Blank
    ensures KindOf("# file: " + s) == FileLine(s)
    ensures KindOf("# owner: " + s) == Ignored
    ensures KindOf("# group: " + s) == Ignored
    ensures KindOf("# platform: " + s) == PlatformLine(PlatformOf(s))
  {
    hide PlatformOf;
    PrefixStripped("# file: ", s);
    PrefixStripped("# owner: ", s);
    PrefixStripped("# group: ", s);
    PrefixStripped("# platform: ", s);
    OtherPrefix("# owner: " + s, "# file: ", 2);
    OtherPrefix("# group: " + s, "# file: ", 2);
    OtherPrefix("# platform: " + s, "# file: ", 2);
    OtherPrefix("# platform: " + s, "# owner: ", 2);
    OtherPrefix("# platform: " + s, "# group: ", 2);
  }

  lemma PrefixStripped(prefix: string, s: string)
    ensures StripPrefix(prefix + s, prefix) == Some(s)
  {
  }

  lemma OtherPrefix(s: string, prefix: string, i: nat)
    requires i < |s| && i < |prefix| && s[i] != prefix[i]
    ensures StripPrefix(s, prefix) == None
  {
  }

  lemma {:induction false} JoinStarts(pieces: seq<string>, sep: char)
    requires pieces != [] && pieces[0] != ""
    ensures Join(pieces, sep) != "" && Join(pieces, sep)[0] == pieces[0][0]
  {
  }

  lemma AceLineKind(a: Ace)
    ensures KindOf(AceText(a)) == AceLine
  {
    hide PermissionsText, OwnerText;
    FlagsTextStarts(a.flags);
    var s := AceText(a);
    assert s[0] == (if FlagsText(a.flags) == "" then ':' else FlagsText(a.flags)[0]);
    OtherPrefix(s, "# file: ", 0);
    OtherPrefix(s, "# owner: ", 0);
    OtherPrefix(s, "# group: ", 0);
    OtherPrefix(s, "# platform: ", 0);
  }

  lemma FlagsTextStarts(flags: set<Flag>)
    ensures FlagsText(flags) != "" ==> FlagsText(flags)[0] != '#'
  {
    hide IsName;
    var picked := Selected(FLAGS, FlagNames, flags);
    if picked != [] {
      assert picked[0] in picked;
      SelectedMember(FLAGS, FlagNames, flags, picked[0]);
      var f :| f in FLAGS && f in flags && picked[0] == FlagNames(f)[0];
      FlagNamesPlain(f, picked[0]);
      assert picked[0] != "" && picked[0][0] != '#' by { NameStarts(picked[0]); }
      JoinStarts(picked, '|');
    }
  }

  lemma NameStarts(n: string)
    requires IsName(n)
    ensures n != "" && n[0] != '#'
  {
    assert IsNameChar(n[0]);
  }

  lemma {:induction false} AceLinesTell(aces: seq<Ace>, rest: seq<string>, file: string, platform: Platform)
    requires forall a <- aces :: IsPlainAce(a)
    ensures Tells(AceLines(aces) + rest, Cursor(Some(file), platform)) ==
            Then(Tagged(file, OnePlatform(platform, aces)), Tells(rest, Cursor(Some(file), platform)))
  {
    hide KindOf, AceText, IsPlainAce, AceOf, Then;
    var c := Cursor(Some(file), platform);
    if aces == [] {
      assert AceLines(aces) + rest == rest;
      ThenThen([], [], Tells(rest, c));
    } else {
      var tail := AceLines(aces[1..]) + rest;
      var lines := AceLines(aces) + rest;
      assert lines[0] == AceText(aces[0]) && lines[1..] == tail;
      AceLineKind(aces[0]);
      AceRoundTripIff(aces[0]);
      AceLinesTell(aces[1..], rest, file, platform);
      ThenThen([Filed(file, Placed(platform, aces[0]))], Tagged(file, OnePlatform(platform, aces[1..])),
               Tells(rest, c));
    }
  }

  lemma {:induction false} TaggedAppend(file: string, a: seq<Placed>, b: seq<Placed>)
    ensures Tagged(file, a + b) == Tagged(file, a) + Tagged(file, b)
  {
    if a == [] {
      assert a + b == b;
    } else {
      assert (a + b)[1..] == a[1..] + b;
      TaggedAppend(file, a[1..], b);
    }
  }

  lemma StepTells(line: string, rest: seq<string>, c: Cursor)
    ensures KindOf(line).Blank? || KindOf(line).Ignored? ==> Tells([line] + rest, c) == Tells(rest, c)
    ensures KindOf(line).FileLine? ==> Tells([line] + rest, c) == Tells(rest, c.(file := Some(KindOf(line).path)))
    ensures KindOf(line).PlatformLine? ==> Tells([line] + rest, c) == Tells(rest, c.(platform := KindOf(line).platform))
  {
    hide KindOf;
    assert ([line] + rest)[1..] == rest;
  }

  /** The platform in force after a listing does not matter when what follows ignores it. */
  lemma {:induction false} PlatformLinesTell(
    order: seq<Platform>, acls: Acls, rest: seq<string>, file: string, platform: Platform, r: Told)
    requires (forall p <- order :: p in acls) && IsPlainAcls(acls)
    requires forall p :: Tells(rest, Cursor(Some(file), p)) == r
    ensures Tells(PlatformLines(order, acls) + rest, Cursor(Some(file), platform)) ==
            Then(Tagged(file, Listed(order, acls)), r)
  {
    hide KindOf, PlatformText, PlatformOf, IsPlainAce, IsCanonical, Then, Tells, AceLines, PlatformLines, Listed,
      OnePlatform, Tagged;
    var c := Cursor(Some(file), platform);
    if order == [] {
      NoLinesNoAces(acls, rest, file);
      ThenThen([], [], r);
    } else {
      var p := order[0];
      var tail := PlatformLines(order[1..], acls) + rest;
      var line := "# platform: " + PlatformText(p);
      FirstPlatform(order, acls, rest, file);
      FixedKinds(PlatformText(p));
      PlatformRoundTripIff(p, "");
      StepTells(line, AceLines(acls[p]) + tail, c);
      AceLinesTell(acls[p], tail, file, p);
      PlatformLinesTell(order[1..], acls, rest, file, p, r);
      ThenThen(Tagged(file, OnePlatform(p, acls[p])), Tagged(file, Listed(order[1..], acls)), r);
    }
  }

  lemma NoLinesNoAces(acls: Acls, rest: seq<string>, file: string)
    ensures PlatformLines([], acls) + rest == rest && Tagged(file, Listed([], acls)) == []
  {
  }

  /** The lines and the ACEs of the first platform, and those of the others. */
  lemma FirstPlatform(order: seq<Platform>, acls: Acls, rest: seq<string>, file: string)
    requires order != [] && forall p <- order :: p in acls
    ensures var p := order[0];
      PlatformLines(order, acls) + rest ==
        ["# platform: " + PlatformText(p)] + (AceLines(acls[p]) + (PlatformLines(order[1..], acls) + rest)) &&
      Tagged(file, Listed(order, acls)) ==
        Tagged(file, OnePlatform(p, acls[p])) + Tagged(file, Listed(order[1..], acls))
  {
    hide PlatformText, AceLines, OnePlatform, Tagged;
    TaggedAppend(file, OnePlatform(order[0], acls[order[0]]), Listed(order[1..], acls));
  }

  predicate AreListings(ls: seq<Listing>) {
    forall l <- ls :: Orders(l.order, l.acls) && IsPlainAcls(l.acls)
  }

  lemma {:induction false} DumpTells(ls: seq<Listing>, c: Cursor)
    requires AreListings(ls)
    ensures Tells(DumpLines(ls), c) == Ok(DumpSays(ls))
  {
    hide KindOf, IsPlainAcls, Tells, Tagged, PlatformLines, Orders;
    if ls == [] {
      NothingTold(c);
    } else {
      var l, rest := ls[0], [""] + DumpLines(ls[1..]);
      var file := Some(l.name);
      assert (forall p <- l.order :: p in l.acls) by { OrderedKeys(l.order, l.acls); }
      var listing := PlatformLines(l.order, l.acls) + rest;
      forall p ensures Tells(rest, Cursor(file, p)) == Ok(DumpSays(ls[1..])) {
        FixedKinds("");
        StepTells("", DumpLines(ls[1..]), Cursor(file, p));
        DumpTells(ls[1..], Cursor(file, p));
      }
      PlatformLinesTell(l.order, l.acls, rest, l.name, c.platform, Ok(DumpSays(ls[1..])));
      HeaderLines(l, DumpLines(ls[1..]));
      FixedKinds(l.name);
      FixedKinds(l.owner);
      FixedKinds(l.group);
      StepTells("# file: " + l.name, ["# owner: " + l.owner] + (["# group: " + l.group] + listing), c);
      StepTells("# owner: " + l.owner, ["# group: " + l.group] + listing, c.(file := file));
      StepTells("# group: " + l.group, listing, c.(file := file));
    }
  }

  lemma NothingTold(c: Cursor)
    ensures Tells([], c) == Ok([])
  {
  }

  lemma HeaderLines(l: Listing, after: seq<string>)
    requires Orders(l.order, l.acls)
    ensures ListingLines(l) + after ==
      ["# file: " + l.name] + (["# owner: " + l.owner] + (["# group: " + l.group] +
      (PlatformLines(l.order, l.acls) + ([""] + after))))
  {
    hide Orders, PlatformLines;
  }

  // ---------------------------------------------------------------- any dump at all

  /** A line is an ACE's exactly when it is not blank and begins as none of the four others do. */
  lemma KindVerdict(line: string)
    ensures KindOf(line) == Blank <==> line == ""
    ensures KindOf(line).FileLine? <==> "# file: " <= line
    ensures KindOf(line) == Ignored <==> "# owner: " <= line || "# group: " <= line
    ensures KindOf(line).PlatformLine? <==> "# platform: " <= line
    ensures KindOf(line).FileLine? ==> "# file: " + KindOf(line).path == line
    ensures KindOf(line).PlatformLine? ==> "# platform: " + PlatformText(KindOf(line).platform) == line
  {
    hide PlatformOf, PlatformText;
    PrefixIff(line, "# file: ");
    PrefixIff(line, "# owner: ");
    PrefixIff(line, "# group: ");
    PrefixIff(line, "# platform: ");
    OnePrefixOnly(line);
    if "# platform: " <= line {
      PlatformRoundTripIff(General, line[|"# platform: "|..]);
    }
  }

  lemma PrefixIff(s: string, prefix: string)
    ensures StripPrefix(s, prefix).Some? <==> prefix <= s
    ensures StripPrefix(s, prefix).Some? ==> prefix + StripPrefix(s, prefix).value == s
    ensures prefix <= s ==> StripPrefix(s, prefix) == Some(s[|prefix|..])
  {
    if prefix <= s {
      assert s[..|prefix|] == prefix;
    }
  }

  lemma OnePrefixOnly(line: string)
    ensures "# file: " <= line ==> |line| > 2 && line[2] == 'f'
    ensures "# owner: " <= line ==> |line| > 2 && line[2] == 'o'
    ensures "# group: " <= line ==> |line| > 2 && line[2] == 'g'
    ensures "# platform: " <= line ==> |line| > 2 && line[2] == 'p'
  {
    var f, o, g, p := "# file: ", "# owner: ", "# group: ", "# platform: ";
    assert f[2] == 'f' && o[2] == 'o' && g[2] == 'g' && p[2] == 'p';
    assert (f <= line ==> line[2] == f[2]) && (o <= line ==> line[2] == o[2]);
    assert (g <= line ==> line[2] == g[2]) && (p <= line ==> line[2] == p[2]);
  }

  /** The file that the last file line names, and the platform that the last platform line does. */
  function FileAfter(lines: seq<string>, start: Option<string>): Option<string> {
    if lines == [] then start
    else
      var kind := KindOf(lines[|lines| - 1]);
      if kind.FileLine? then Some(kind.path) else FileAfter(lines[..|lines| - 1], start)
  }

  function PlatformAtEnd(lines: seq<string>, start: Platform): Platform {
    if lines == [] then start
    else
      var kind := KindOf(lines[|lines| - 1]);
      if kind.PlatformLine? then kind.platform else PlatformAtEnd(lines[..|lines| - 1], start)
  }

  /** A file line does not end a platform: both stand until the next of their kind. */
  function CursorAfter(lines: seq<string>, c: Cursor): Cursor {
    Cursor(FileAfter(lines, c.file), PlatformAtEnd(lines, c.platform))
  }

  lemma StaysThere(c: Cursor)
    ensures CursorAfter([], c) == c
  {
  }

  lemma {:induction false} CursorAfterCons(line: string, lines: seq<string>, c: Cursor)
    ensures CursorAfter([line] + lines, c) == CursorAfter(lines, CursorAfter([line], c))
  {
    hide KindOf;
    var all := [line] + lines;
    if lines == [] {
      assert all == [line];
    } else {
      assert all[|all| - 1] == lines[|lines| - 1] && all[..|all| - 1] == [line] + lines[..|lines| - 1];
      CursorAfterCons(line, lines[..|lines| - 1], c);
    }
  }

  lemma CursorAfterOne(line: string, c: Cursor)
    ensures CursorAfter([line], c) ==
      match KindOf(line)
      case FileLine(path) => c.(file := Some(path))
      case PlatformLine(p) => c.(platform := p)
      case _ => c
  {
    hide KindOf;
    assert [line][..0] == [];
    StaysThere(c);
  }

  /** What a line adds where it stands: an ACE's, once a file is named, its ACE or its error. */
  lemma OneLineTells(line: string, c: Cursor)
    ensures KindOf(line) != AceLine || c.file.None? ==> Tells([line], c) == Ok([])
    ensures KindOf(line) == AceLine && c.file.Some? ==>
      (AceOf(line).Err? ==> Tells([line], c) == Err(AceOf(line).error)) &&
      (AceOf(line).Ok? ==> Tells([line], c) == Ok([Filed(c.file.value, Placed(c.platform, AceOf(line).value))]))
  {
    hide KindOf, AceOf, Then;
    assert [line][1..] == [];
    NothingTold(c);
    if KindOf(line) == AceLine && c.file.Some? && AceOf(line).Ok? {
      ThenThen([Filed(c.file.value, Placed(c.platform, AceOf(line).value))], [], Ok([]));
    }
  }

  /**
   * A dump tells what its lines tell one after the other, each from where the lines before it
   * lead: in the last file named, on the last platform named, and up to the first bad ACE.
   */
  lemma {:induction false} TellsAppend(a: seq<string>, b: seq<string>, c: Cursor)
    ensures Tells(a + b, c) ==
      if Tells(a, c).Err? then Tells(a, c) else Then(Tells(a, c).value, Tells(b, CursorAfter(a, c)))
    decreases |a|
  {
    hide KindOf, AceOf, Then, CursorAfter;
    if a == [] {
      assert a + b == b;
      ThenThen([], [], Tells(b, c));
      StaysThere(c);
    } else {
      var line, rest := a[0], a[1..];
      assert (a + b)[1..] == rest + b && a == [line] + rest;
      CursorAfterCons(line, rest, c);
      CursorAfterOne(line, c);
      TellsAppend(rest, b, CursorAfter([line], c));
      if KindOf(line) == AceLine && c.file.Some? && AceOf(line).Ok? {
        var x := Filed(c.file.value, Placed(c.platform, AceOf(line).value));
        ThenThen([x], [], Ok([]));
        if Tells(rest, c).Ok? {
          ThenThen([x], Tells(rest, c).value, Tells(b, CursorAfter(rest, c)));
          ThenOk([x], Tells(rest, c).value);
        }
      }
    }
  }

  lemma ThenOk(a: seq<Filed>, b: seq<Filed>)
    ensures Then(a, Ok(b)) == Ok(a + b)
  {
  }

  /** A listing shows its name, owner and group, in this order, before its ACL, and a blank line after it. */
  lemma ListingShows(l: Listing)
    requires Orders(l.order, l.acls)
    ensures var lines := ListingLines(l);
      |lines| >= 4 && lines[0] == "# file: " + l.name && lines[1] == "# owner: " + l.owner &&
      lines[2] == "# group: " + l.group && lines[|lines| - 1] == "" &&
      lines[3..|lines| - 1] == PlatformLines(l.order, l.acls)
  {
    hide PlatformLines, Orders;
  }

  // ---------------------------------------------------------------- line breaks

  predicate HasPlainLines(a: Ace) {
    '\n' !in OwnerName(a.owner)
  }

  /** No text of the listing holds a line feed, and no platform line would end in a return. */
  predicate IsPrintable(l: Listing) {
    '\n' !in l.name && '\n' !in l.owner && '\n' !in l.group &&
    forall p <- l.acls :: IsLine(PlatformText(p)) && forall a <- l.acls[p] :: HasPlainLines(a)
  }

  lemma PrefixedLine(prefix: string, s: string)
    requires prefix != "" && '\n' !in prefix && prefix[|prefix| - 1] != '\r' && IsLine(s)
    ensures IsLine(prefix + s)
  {
  }

  lemma AceTextIsLine(a: Ace)
    requires HasPlainLines(a)
    ensures IsLine(AceText(a))
  {
    hide FlagsText, PermissionsText, IsLine;
    FlagsAndPermissionsFree(a);
    assert '\n' !in OwnerText(a.owner);
    assert Free(PermissionsText(a.permission), '\n') && Free(PermissionsText(a.permission), '\r');
    assert Free(FlagsText(a.flags), '\n');
    FieldsAreLine(FlagsText(a.flags), OwnerText(a.owner), VerdictText(a.allow), PermissionsText(a.permission));
  }

  lemma FieldsAreLine(f: string, o: string, v: string, p: string)
    requires Free(f, '\n') && Free(o, '\n') && Free(v, '\n') && Free(p, '\n') && Free(p, '\r')
    ensures IsLine(f + ":" + o + ":" + v + ":" + p)
  {
    var before := f + ":" + o + ":" + v + ":";
    PrefixedLine(before, p);
  }

  lemma {:induction false} AceLinesAreLines(aces: seq<Ace>)
    requires forall a <- aces :: HasPlainLines(a)
    ensures AllLines(AceLines(aces))
  {
    hide HasPlainLines, IsLine, AceText;
    if aces != [] {
      AceTextIsLine(aces[0]);
      AceLinesAreLines(aces[1..]);
    }
  }

  lemma {:induction false} PlatformLinesAreLines(order: seq<Platform>, acls: Acls)
    requires forall p <- order :: p in acls
    requires forall p <- acls :: IsLine(PlatformText(p)) && forall a <- acls[p] :: HasPlainLines(a)
    ensures AllLines(PlatformLines(order, acls))
  {
    hide HasPlainLines, IsLine, PlatformText;
    if order != [] {
      PrefixedLine("# platform: ", PlatformText(order[0]));
      AceLinesAreLines(acls[order[0]]);
      PlatformLinesAreLines(order[1..], acls);
    }
  }

  /** A header line, read back. */
  lemma HeaderLine(prefix: string, s: string)
    requires prefix != "" && '\n' !in prefix && prefix[|prefix| - 1] != '\r' && '\n' !in s
    ensures '\n' !in prefix + s && WithoutReturn(prefix + s) == prefix + WithoutReturn(s)
  {
  }

  /** The listing that a reader makes of a printed one: its name and owner texts may lose a return. */
  function AsRead(l: Listing): Listing {
    l.(name := WithoutReturn(l.name), owner := WithoutReturn(l.owner), group := WithoutReturn(l.group))
  }

  function AllAsRead(ls: seq<Listing>): seq<Listing> {
    if ls == [] then [] else [AsRead(ls[0])] + AllAsRead(ls[1..])
  }

  lemma ListingReads(l: Listing)
    requires Orders(l.order, l.acls) && IsPrintable(l)
    ensures NoFeeds(ListingLines(l)) && Chomped(ListingLines(l)) == ListingLines(AsRead(l))
  {
    hide IsLine, PlatformText, HasPlainLines, PlatformLines, Orders, WithoutReturn, NoFeeds, Chomped, AllLines;
    OrderedKeys(l.order, l.acls);
    var lines := PlatformLines(l.order, l.acls);
    PlatformLinesAreLines(l.order, l.acls);
    HeaderLine("# file: ", l.name);
    HeaderLine("# owner: ", l.owner);
    HeaderLine("# group: ", l.group);
    EmptyIsLine();
    HeaderReads("# file: " + l.name, "# owner: " + l.owner, "# group: " + l.group);
    var header := ["# file: " + l.name, "# owner: " + l.owner, "# group: " + l.group];
    ListedLines([""]);
    ChompedLines(lines);
    ChompedLines([""]);
    ChompedAppend(header, lines);
    ChompedAppend(header + lines, [""]);
    NoFeedsAppend(header, lines);
    NoFeedsAppend(header + lines, [""]);
  }

  lemma HeaderReads(f: string, o: string, g: string)
    requires '\n' !in f && '\n' !in o && '\n' !in g
    ensures NoFeeds([f, o, g]) && Chomped([f, o, g]) == [WithoutReturn(f), WithoutReturn(o), WithoutReturn(g)]
  {
    hide WithoutReturn;
    assert [f, o, g][1..] == [o, g] && [o, g][1..] == [g] && [g][1..] == [];
    assert Chomped([g]) == [WithoutReturn(g)];
    assert Chomped([o, g]) == [WithoutReturn(o), WithoutReturn(g)];
  }

  lemma ListedLines(lines: seq<string>)
    requires forall l <- lines :: IsLine(l)
    ensures AllLines(lines)
  {
  }

  lemma NoFeedsAppend(a: seq<string>, b: seq<string>)
    requires NoFeeds(a) && NoFeeds(b)
    ensures NoFeeds(a + b)
  {
  }

  lemma {:induction false} DumpReads(ls: seq<Listing>)
    requires AreListings(ls) && forall l <- ls :: IsPrintable(l)
    ensures AreListings(AllAsRead(ls))
    ensures NoFeeds(DumpLines(ls)) && Chomped(DumpLines(ls)) == DumpLines(AllAsRead(ls))
  {
    hide IsPrintable, IsPlainAcls, Orders, ListingLines, WithoutReturn, NoFeeds, Chomped;
    if ls == [] {
      ListedLines([]);
      ChompedLines([]);
    } else {
      var l, rest := ls[0], ls[1..];
      ListingReads(l);
      DumpReads(rest);
      assert AllAsRead(ls)[1..] == AllAsRead(rest);
      NoFeedsAppend(ListingLines(l), DumpLines(rest));
      ChompedAppend(ListingLines(l), DumpLines(rest));
    }
  }

  lemma EmptyIsLine()
    ensures IsLine("")
  {
  }

  // ---------------------------------------------------------------- the dump as a map

  predicate HaveDistinctNames(ls: seq<Listing>) {
    forall i, j :: 0 <= i < j < |ls| ==> ls[i].name != ls[j].name
  }

  /** What restoring from a dump of these listings works with: an entry without ACLs is absent. */
  function RestoredOf(ls: seq<Listing>): Restored {
    if ls == [] then map[]
    else if ls[0].acls == map[] then RestoredOf(ls[1..])
    else RestoredOf(ls[1..])[ls[0].name := ls[0].acls]
  }

  lemma {:induction false} TaggedOfFile(file: string, ps: seq<Placed>, other: string)
    ensures OfFile(Tagged(file, ps), other) == if file == other then ps else []
  {
    if ps != [] {
      TaggedOfFile(file, ps[1..], other);
    }
  }

  lemma PlainGathered(l: Listing)
    requires Orders(l.order, l.acls) && IsPlainAcls(l.acls)
    ensures Gathered(Listed(l.order, l.acls)) == l.acls
    ensures Listed(l.order, l.acls) == [] <==> l.acls == map[]
  {
    hide Gathered, Listed, IsPlainAce, IsCanonical;
    GatheredListed(l.order, l.acls);
    assert NonEmpty(l.acls) == l.acls;
    EmptyGathered();
    if l.acls == map[] {
      EmptyOrder(l.order, l.acls);
      assert Listed([], l.acls) == [] by { NothingListed(l.acls); }
    }
  }

  lemma EmptyOrder(order: seq<Platform>, m: Acls)
    requires Orders(order, m)
    ensures order == [] || m != map[]
  {
    if order != [] {
      assert order[0] in m;
    }
  }

  lemma NothingListed(m: Acls)
    ensures Listed([], m) == []
  {
  }

  lemma {:induction false} DumpOfFile(ls: seq<Listing>, file: string)
    requires AreListings(ls) && HaveDistinctNames(ls)
    ensures var ps := OfFile(DumpSays(ls), file);
      if file in RestoredOf(ls) then Gathered(ps) == RestoredOf(ls)[file] && ps != [] else ps == []
    ensures (forall l <- ls :: l.name != file) ==> file !in RestoredOf(ls)
  {
    hide Gathered, Listed, IsPlainAcls, Tagged, Orders;
    if ls != [] {
      var l, rest := ls[0], ls[1..];
      assert forall x <- rest :: x in ls && x.name != l.name;
      DumpOfFile(rest, file);
      assert (forall p <- l.order :: p in l.acls) by { OrderedKeys(l.order, l.acls); }
      PlainGathered(l);
      OfFileAppend(ListingSays(l), DumpSays(rest), file);
      TaggedOfFile(l.name, Listed(l.order, l.acls), file);
      if file == l.name {
        assert OfFile(DumpSays(ls), file) == Listed(l.order, l.acls);
      } else {
        assert OfFile(DumpSays(ls), file) == OfFile(DumpSays(rest), file);
      }
    }
  }

  /** A printed dump says what its listings say as read. */
  lemma DumpReadsAs(ls: seq<Listing>)
    requires AreListings(ls) && forall l <- ls :: IsPrintable(l)
    ensures AreListings(AllAsRead(ls))
    ensures ReadDump(Printed(DumpLines(ls))) == Ok(Collected(DumpSays(AllAsRead(ls))))
  {
    hide Tells, DumpLines, DumpSays, Collected, LinesOf, Printed, IsPrintable, IsPlainAcls, Orders;
    DumpReads(ls);
    LinesRoundTrip(DumpLines(ls));
    DumpTells(AllAsRead(ls), START);
  }

  lemma CollectedSays(ls: seq<Listing>)
    requires AreListings(ls) && HaveDistinctNames(ls)
    ensures Collected(DumpSays(ls)) == RestoredOf(ls)
  {
    hide DumpSays, RestoredOf, Files, OfFile, Gathered, HaveDistinctNames;
    var fs := DumpSays(ls);
    forall f ensures f in Collected(fs) <==> f in RestoredOf(ls) {
      AbsentFile(fs, f);
      DumpOfFile(ls, f);
    }
    forall f <- Collected(fs) ensures Collected(fs)[f] == RestoredOf(ls)[f] {
      DumpOfFile(ls, f);
    }
    assert Collected(fs).Keys == RestoredOf(ls).Keys;
  }

  predicate HasKeptName(l: Listing) {
    l.acls == map[] || WithoutReturn(l.name) == l.name
  }

  lemma {:induction false} KeptNamesRestore(ls: seq<Listing>)
    requires forall l <- ls :: HasKeptName(l)
    ensures RestoredOf(AllAsRead(ls)) == RestoredOf(ls)
  {
    hide WithoutReturn;
    if ls != [] {
      assert HasKeptName(ls[0]);
      KeptNamesRestore(ls[1..]);
    }
  }

  lemma {:induction false} RestoredHas(ls: seq<Listing>, file: string)
    ensures file in RestoredOf(ls) <==> exists i :: 0 <= i < |ls| && ls[i].name == file && ls[i].acls != map[]
  {
    if ls != [] {
      RestoredHas(ls[1..], file);
      if i :| 0 <= i < |ls| && ls[i].name == file && ls[i].acls != map[] {
        assert i > 0 ==> ls[i] == ls[1..][i - 1];
      }
      if i :| 0 <= i < |ls[1..]| && ls[1..][i].name == file && ls[1..][i].acls != map[] {
        assert ls[i + 1] == ls[1..][i];
      }
    }
  }

  lemma {:induction false} AllAsReadAt(ls: seq<Listing>, i: nat)
    requires i < |ls|
    ensures |AllAsRead(ls)| == |ls| && AllAsRead(ls)[i] == AsRead(ls[i])
  {
    hide AsRead;
    AllAsReadLen(ls);
    if i > 0 {
      AllAsReadAt(ls[1..], i - 1);
    }
  }

  lemma {:induction false} AllAsReadLen(ls: seq<Listing>)
    ensures |AllAsRead(ls)| == |ls|
  {
    if ls != [] {
      AllAsReadLen(ls[1..]);
    }
  }

  /** A lost return can only be made up for by a longer name that loses one too, and so on. */
  lemma {:induction false} LostReturnShows(ls: seq<Listing>, i: nat, longest: nat)
    requires i < |ls| && !HasKeptName(ls[i]) && forall l <- ls :: |l.name| <= longest
    ensures RestoredOf(AllAsRead(ls)) != RestoredOf(ls)
    decreases longest - |ls[i].name|
  {
    hide RestoredOf, AllAsRead;
    if RestoredOf(AllAsRead(ls)) == RestoredOf(ls) {
      RestoredHas(ls, ls[i].name);
      RestoredHas(AllAsRead(ls), ls[i].name);
      AllAsReadAt(ls, i);
      var j :| 0 <= j < |ls| && AllAsRead(ls)[j].name == ls[i].name && AllAsRead(ls)[j].acls != map[];
      AllAsReadAt(ls, j);
      assert ls[j] in ls;
      LostReturnShows(ls, j, longest);
    }
  }

  function Longest(ls: seq<Listing>): nat {
    if ls == [] then 0
    else if |ls[0].name| > Longest(ls[1..]) then |ls[0].name|
    else Longest(ls[1..])
  }

  lemma {:induction false} LongestIs(ls: seq<Listing>)
    ensures forall l <- ls :: |l.name| <= Longest(ls)
  {
    if ls != [] {
      LongestIs(ls[1..]);
      assert ls == [ls[0]] + ls[1..];
    }
  }

  /**
   * A printed dump reads back as the map of its listings, each under its name without a final
   * return. So it is the map of what it was printed from exactly when every listing that has
   * ACLs bears a name that does not end in a return.
   */
  lemma DumpRoundTrip(ls: seq<Listing>)
    requires AreListings(ls) && HaveDistinctNames(AllAsRead(ls)) && forall l <- ls :: IsPrintable(l)
    ensures ReadDump(Printed(DumpLines(ls))) == Ok(RestoredOf(AllAsRead(ls)))
    ensures ReadDump(Printed(DumpLines(ls))) == Ok(RestoredOf(ls)) <==> forall l <- ls :: HasKeptName(l)
  {
    hide DumpLines, DumpSays, RestoredOf, Collected, Printed, IsPrintable, HaveDistinctNames, ReadDump, AreListings,
      HasKeptName, AllAsRead, Longest;
    DumpReadsAs(ls);
    CollectedSays(AllAsRead(ls));
    if forall l <- ls :: HasKeptName(l) {
      KeptNamesRestore(ls);
    } else {
      var i :| 0 <= i < |ls| && !HasKeptName(ls[i]);
      LongestIs(ls);
      LostReturnShows(ls, i, Longest(ls));
    }
  }

  /** Names that keep their ends stay distinct. */
  lemma DistinctAsRead(ls: seq<Listing>)
    requires HaveDistinctNames(ls) && forall l <- ls :: IsLine(l.name)
    ensures HaveDistinctNames(AllAsRead(ls))
  {
    hide AllAsRead;
    AllAsReadLen(ls);
    forall i, j | 0 <= i < j < |ls| ensures AllAsRead(ls)[i].name != AllAsRead(ls)[j].name {
      AllAsReadAt(ls, i);
      AllAsReadAt(ls, j);
      assert ls[i] in ls && ls[j] in ls;
    }
  }
}
