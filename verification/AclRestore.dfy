/** Backing the ACLs of an archive up as a dump, and restoring them from it. */
module AclRestore {
  import opened Basics
  import opened Utf8
  import opened Chunks
  import opened Entries
  import opened AclText
  import opened AclChunks
  import opened AclEditing
  import opened AclDump

  /** An entry's name as text. */
  function NameOf(e: NormalEntry): string {
    var text := TextOf(e.header.name);
    if text.Some? then text.value else ""
  }

  /** An entry as it is listed: its owner texts, and how its ACL map's iterator meets the platforms. */
  datatype Shown = Shown(entry: NormalEntry, owner: string, group: string, order: seq<Platform>)

  predicate IsShown(x: Shown) {
    AclOf(x.entry.extra).Ok? ==> Orders(x.order, AclOf(x.entry.extra).value)
  }

  /** No platforms chosen means all of them. */
  predicate Passes(p: Platform, chosen: set<Platform>) {
    chosen == {} || p in chosen
  }

  function Kept(m: Acls, chosen: set<Platform>): Acls {
    map p | p in m && Passes(p, chosen) :: m[p]
  }

  function KeptOrder(order: seq<Platform>, chosen: set<Platform>): seq<Platform> {
    if order == [] then []
    else (if Passes(order[0], chosen) then [order[0]] else []) + KeptOrder(order[1..], chosen)
  }

  predicate Distinct(order: seq<Platform>) {
    forall i, j :: 0 <= i < j < |order| ==> order[i] != order[j]
  }

  lemma DistinctCons(p: Platform, rest: seq<Platform>)
    ensures Distinct([p] + rest) <==> Distinct(rest) && p !in rest
  {
    var all := [p] + rest;
    assert all[0] == p;
    assert forall i {:trigger rest[i]} :: 0 <= i < |rest| ==> all[i + 1] == rest[i];
    if Distinct(all) {
      forall i, j | 0 <= i < j < |rest| ensures rest[i] != rest[j] {
        assert all[i + 1] != all[j + 1];
      }
      forall i | 0 <= i < |rest| ensures rest[i] != p {
        assert all[i + 1] != all[0];
      }
    } else {
      var i, j :| 0 <= i < j < |all| && all[i] == all[j];
      assert all[j] == rest[j - 1];
      assert i > 0 ==> all[i] == rest[i - 1];
    }
  }

  lemma {:induction false} KeptOrders(order: seq<Platform>, chosen: set<Platform>)
    requires Distinct(order)
    ensures forall p :: p in KeptOrder(order, chosen) <==> p in order && Passes(p, chosen)
    ensures Distinct(KeptOrder(order, chosen))
  {
    hide Distinct;
    if order == [] {
      NoneDistinct();
    } else {
      assert order == [order[0]] + order[1..];
      DistinctCons(order[0], order[1..]);
      KeptOrders(order[1..], chosen);
      var rest := KeptOrder(order[1..], chosen);
      DistinctCons(order[0], rest);
      assert KeptOrder(order, chosen) == if Passes(order[0], chosen) then [order[0]] + rest else rest;
    }
  }

  lemma NoneDistinct()
    ensures Distinct([])
  {
  }

  lemma KeptIsPlain(m: Acls, order: seq<Platform>, chosen: set<Platform>)
    requires Orders(order, m) && IsPlainAcls(m)
    ensures Orders(KeptOrder(order, chosen), Kept(m, chosen)) && IsPlainAcls(Kept(m, chosen))
    ensures chosen == {} ==> Kept(m, chosen) == m
  {
    hide IsPlainAce, IsCanonical, Distinct;
    DistinctOrder(order, m);
    KeptOrders(order, chosen);
    DistinctOrder(KeptOrder(order, chosen), Kept(m, chosen));
  }

  lemma DistinctOrder(order: seq<Platform>, m: Acls)
    ensures Orders(order, m) <==> (forall p :: p in order <==> p in m) && Distinct(order)
  {
  }

  function ListingOf(x: Shown, chosen: set<Platform>): AclResult<Listing> {
    var acls :- AclOf(x.entry.extra);
    Ok(Listing(NameOf(x.entry), x.owner, x.group, Kept(acls, chosen), KeptOrder(x.order, chosen)))
  }

  /** What a backup of the picked entries prints; an ACL that does not decode stops it. */
  function ListingsOf(xs: seq<Shown>, picked: string -> bool, chosen: set<Platform>): AclResult<seq<Listing>> {
    if xs == [] then Ok([])
    else if !picked(NameOf(xs[0].entry)) then ListingsOf(xs[1..], picked, chosen)
    else
      var listing :- ListingOf(xs[0], chosen);
      var rest :- ListingsOf(xs[1..], picked, chosen);
      Ok([listing] + rest)
  }

  // ---------------------------------------------------------------- printing, step by step

  class Output {
    var text: string

    constructor ()
      ensures text == ""
    {
      text := "";
    }

    method PrintLine(line: string)
      modifies this
      ensures text == old(text) + Printed([line])
    {
      text := text + line + "\n";
      assert [line][1..] == [];
      assert line + "\n" + "" == line + "\n";
      assert text == old(text) + (line + "\n");
    }
  }

  lemma {:induction false} PrintedAppend(a: seq<string>, b: seq<string>)
    ensures Printed(a + b) == Printed(a) + Printed(b)
  {
    if a == [] {
      assert a + b == b;
    } else {
      assert (a + b)[1..] == a[1..] + b;
      PrintedAppend(a[1..], b);
      Assoc(a[0] + "\n", Printed(a[1..]), Printed(b));
    }
  }

  lemma PrintedNext(text: string, a: seq<string>, b: seq<string>)
    ensures text + Printed(a) + Printed(b) == text + Printed(a + b)
  {
    PrintedAppend(a, b);
    Assoc(text, Printed(a), Printed(b));
  }

  method PrintAces(out: Output, aces: seq<Ace>)
    modifies out
    ensures out.text == old(out.text) + Printed(AceLines(aces))
  {
    hide AceText, Printed;
    ghost var before := out.text;
    assert aces[0..] == aces;
    for i := 0 to |aces|
      invariant before + Printed(AceLines(aces)) == out.text + Printed(AceLines(aces[i..]))
    {
      var left := aces[i..];
      assert left[1..] == aces[i + 1..];
      PrintedNext(out.text, [AceText(aces[i])], AceLines(left[1..]));
      out.PrintLine(AceText(aces[i]));
    }
    NothingPrinted(out.text);
  }

  lemma NothingPrinted(text: string)
    ensures text + Printed([]) == text
  {
  }

  method PrintPlatform(out: Output, p: Platform, aces: seq<Ace>)
    modifies out
    ensures out.text == old(out.text) + Printed(["# platform: " + PlatformText(p)] + AceLines(aces))
  {
    hide AceText, Printed, PlatformText, AceLines;
    PrintedNext(out.text, ["# platform: " + PlatformText(p)], AceLines(aces));
    out.PrintLine("# platform: " + PlatformText(p));
    PrintAces(out, aces);
  }

  lemma KeptNext(order: seq<Platform>, i: nat, acls: Acls, chosen: set<Platform>)
    requires i < |order| && forall p <- KeptOrder(order[i..], chosen) :: p in acls
    ensures var p, rest := order[i], KeptOrder(order[i + 1..], chosen);
      (forall q <- rest :: q in acls) &&
      if Passes(p, chosen) then
        p in acls && PlatformLines(KeptOrder(order[i..], chosen), acls) ==
          ["# platform: " + PlatformText(p)] + AceLines(acls[p]) + PlatformLines(rest, acls)
      else KeptOrder(order[i..], chosen) == rest
  {
    hide PlatformText, AceLines;
    var left := order[i..];
    assert left[1..] == order[i + 1..];
    var rest := KeptOrder(left[1..], chosen);
    assert forall q <- rest :: q in KeptOrder(left, chosen);
    if Passes(order[i], chosen) {
      assert KeptOrder(left, chosen) == [order[i]] + rest;
      assert KeptOrder(left, chosen)[1..] == rest;
      assert order[i] in KeptOrder(left, chosen);
    }
  }

  method PrintPlatforms(out: Output, acls: Acls, order: seq<Platform>, chosen: set<Platform>)
    requires Orders(order, acls)
    requires forall p <- KeptOrder(order, chosen) :: p in Kept(acls, chosen)
    modifies out
    ensures out.text == old(out.text) + Printed(PlatformLines(KeptOrder(order, chosen), Kept(acls, chosen)))
  {
    hide AceText, Printed, PlatformText, AceLines, PlatformLines, KeptOrder;
    ghost var kept := Kept(acls, chosen);
    ghost var before := out.text;
    assert order[0..] == order;
    for i := 0 to |order|
      invariant forall p <- KeptOrder(order[i..], chosen) :: p in kept
      invariant before + Printed(PlatformLines(KeptOrder(order, chosen), kept)) ==
                out.text + Printed(PlatformLines(KeptOrder(order[i..], chosen), kept))
    {
      KeptNext(order, i, kept, chosen);
      var p := order[i];
      if Passes(p, chosen) {
        PrintedNext(out.text, ["# platform: " + PlatformText(p)] + AceLines(acls[p]),
                    PlatformLines(KeptOrder(order[i + 1..], chosen), kept));
        PrintPlatform(out, p, acls[p]);
      }
    }
    assert PlatformLines(KeptOrder([], chosen), kept) == [] by { NoPlatforms(kept, chosen); }
    assert order[|order|..] == [];
    NothingPrinted(out.text);
  }

  lemma NoPlatforms(m: Acls, chosen: set<Platform>)
    ensures KeptOrder([], chosen) == [] && PlatformLines([], m) == []
  {
  }

  /** The part of `archive_get_acl` that shows one entry. */
  method PrintListing(out: Output, x: Shown, chosen: set<Platform>) returns (r: AclResult<()>)
    requires IsShown(x)
    modifies out
    ensures AclOf(x.entry.extra).Err? ==>
      r == Err(AclOf(x.entry.extra).error) &&
      out.text == old(out.text) + Printed(["# file: " + NameOf(x.entry), "# owner: " + x.owner, "# group: " + x.group])
    ensures AclOf(x.entry.extra).Ok? ==> r.Ok?
    ensures r.Ok? ==>
      var l := ListingOf(x, chosen).value;
      Orders(l.order, l.acls) && out.text == old(out.text) + Printed(ListingLines(l))
  {
    hide AclOf, Printed, PlatformLines, NameOf, Orders;
    ghost var text := out.text;
    out.PrintLine("# file: " + NameOf(x.entry));
    out.PrintLine("# owner: " + x.owner);
    out.PrintLine("# group: " + x.group);
    ghost var f, o, g := "# file: " + NameOf(x.entry), "# owner: " + x.owner, "# group: " + x.group;
    PrintedNext(text, [f], [o]);
    PrintedNext(text, [f, o], [g]);
    assert [f] + [o] == [f, o] && [f, o] + [g] == [f, o, g];
    var decoded := Acl(x.entry.extra);
    if decoded.Err? {
      return Err(decoded.error);
    }
    DecodedIsPlain(x.entry.extra);
    KeptIsPlain(decoded.value, x.order, chosen);
    OrderedKeys(KeptOrder(x.order, chosen), Kept(decoded.value, chosen));
    PrintPlatforms(out, decoded.value, x.order, chosen);
    out.PrintLine("");
    ghost var lines := PlatformLines(KeptOrder(x.order, chosen), Kept(decoded.value, chosen));
    PrintedNext(text, [f, o, g], lines);
    PrintedNext(text, [f, o, g] + lines, [""]);
    return Ok(());
  }

  lemma {:induction false} DumpAppend(ls: seq<Listing>, l: Listing)
    requires (forall x <- ls :: Orders(x.order, x.acls)) && Orders(l.order, l.acls)
    ensures DumpLines(ls + [l]) == DumpLines(ls) + ListingLines(l)
  {
    hide ListingLines, Orders;
    if ls == [] {
      assert [l][1..] == [];
    } else {
      assert (ls + [l])[1..] == ls[1..] + [l];
      DumpAppend(ls[1..], l);
      Assoc(ListingLines(ls[0]), DumpLines(ls[1..]), ListingLines(l));
    }
  }

  lemma {:induction false} ListingsAreListings(xs: seq<Shown>, picked: string -> bool, chosen: set<Platform>)
    requires ListingsOf(xs, picked, chosen).Ok? && forall x <- xs :: IsShown(x)
    ensures AreListings(ListingsOf(xs, picked, chosen).value)
  {
    hide AclOf, Orders, IsPlainAcls, Kept, KeptOrder;
    if xs != [] {
      var x := xs[0];
      assert IsShown(x);
      ListingsAreListings(xs[1..], picked, chosen);
      if picked(NameOf(x.entry)) {
        DecodedIsPlain(x.entry.extra);
        KeptIsPlain(AclOf(x.entry.extra).value, x.order, chosen);
      }
    }
  }

  function Added(ls: seq<Listing>, r: AclResult<seq<Listing>>): AclResult<seq<Listing>> {
    if r.Err? then r else Ok(ls + r.value)
  }

  lemma {:induction false} ListingsNext(xs: seq<Shown>, i: nat, picked: string -> bool, chosen: set<Platform>)
    requires i < |xs|
    ensures ListingsOf(xs[i..], picked, chosen) ==
      (if !picked(NameOf(xs[i].entry)) then ListingsOf(xs[i + 1..], picked, chosen)
       else if ListingOf(xs[i], chosen).Err? then Err(ListingOf(xs[i], chosen).error)
       else Added([ListingOf(xs[i], chosen).value], ListingsOf(xs[i + 1..], picked, chosen)))
  {
    hide ListingOf;
    assert xs[i..][1..] == xs[i + 1..];
  }

  lemma AddedAdded(a: seq<Listing>, b: seq<Listing>, r: AclResult<seq<Listing>>)
    ensures Added(a, Added(b, r)) == Added(a + b, r) && Added([], r) == r && Added(a, Ok([])) == Ok(a)
  {
    if r.Ok? {
      Assoc(a, b, r.value);
      assert [] + r.value == r.value;
    }
    assert a + [] == a;
  }

  /** `archive_get_acl`, over the entries that the reader yields. */
  method ArchiveGetAcl(xs: seq<Shown>, picked: string -> bool, chosen: set<Platform>)
    returns (r: AclResult<()>, text: string)
    requires forall x <- xs :: IsShown(x)
    ensures ListingsOf(xs, picked, chosen).Err? ==> r == Err(ListingsOf(xs, picked, chosen).error)
    ensures ListingsOf(xs, picked, chosen).Ok? ==> r.Ok?
    ensures r.Ok? ==>
      AreListings(ListingsOf(xs, picked, chosen).value) &&
      text == Printed(DumpLines(ListingsOf(xs, picked, chosen).value))
  {
    hide AclOf, Printed, ListingsOf, IsShown, NameOf, DumpLines, ListingLines, Orders, Kept, KeptOrder, Added;
    var out := new Output();
    ghost var shown: seq<Listing> := [];
    assert xs[0..] == xs;
    AddedAdded([], [], ListingsOf(xs, picked, chosen));
    assert Printed(DumpLines([])) == "" by { NothingDumped(); }
    for i := 0 to |xs|
      invariant forall l <- shown :: Orders(l.order, l.acls)
      invariant ListingsOf(xs, picked, chosen) == Added(shown, ListingsOf(xs[i..], picked, chosen))
      invariant out.text == Printed(DumpLines(shown))
    {
      ListingsNext(xs, i, picked, chosen);
      if picked(NameOf(xs[i].entry)) {
        var one := PrintListing(out, xs[i], chosen);
        if one.Err? {
          AddedErr(shown);
          return Err(one.error), out.text;
        }
        ghost var l := ListingOf(xs[i], chosen).value;
        DumpAppend(shown, l);
        PrintedAppend(DumpLines(shown), ListingLines(l));
        AddedAdded(shown, [l], ListingsOf(xs[i + 1..], picked, chosen));
        shown := shown + [l];
      }
    }
    assert xs[|xs|..] == [];
    NothingListings(picked, chosen);
    AddedAdded(shown, [], Ok([]));
    ListingsAreListings(xs, picked, chosen);
    return Ok(()), out.text;
  }

  lemma NothingDumped()
    ensures Printed(DumpLines([])) == ""
  {
  }

  lemma NothingListings(picked: string -> bool, chosen: set<Platform>)
    ensures ListingsOf([], picked, chosen) == Ok([])
  {
  }

  lemma AddedErr(ls: seq<Listing>)
    ensures forall e :: Added(ls, Err(e)) == Err(e)
  {
  }

  // ---------------------------------------------------------------- restoring

  function RestoredExtra(e: NormalEntry, dump: Restored, order: seq<Platform>): seq<RawChunk>
    requires NameOf(e) in dump ==> Orders(order, dump[NameOf(e)])
  {
    if NameOf(e) in dump then WithAcls(e.extra, dump[NameOf(e)], order) else e.extra
  }

  /** The `Restore` branch of `transform_entry`: an entry the dump does not know is left alone. */
  method RestoreEntry(e: NormalEntry, dump: Restored, order: seq<Platform>) returns (r: NormalEntry)
    requires NameOf(e) in dump ==> Orders(order, dump[NameOf(e)])
    ensures r == e.(extra := RestoredExtra(e, dump, order))
  {
    hide WithAcls, NameOf, Orders;
    if NameOf(e) in dump {
      var extra := ReplaceAcls(e.extra, dump[NameOf(e)], order);
      return e.(extra := extra);
    }
    return e;
  }

  predicate HaveDistinctEntryNames(xs: seq<Shown>) {
    forall i, j :: 0 <= i < j < |xs| ==> NameOf(xs[i].entry) != NameOf(xs[j].entry)
  }

  /** What restoring leaves of an entry's ACLs: those that were shown, if any were. */
  function ExpectedAcls(x: Shown, picked: string -> bool, chosen: set<Platform>): AclResult<Acls> {
    var decoded := AclOf(x.entry.extra);
    if picked(NameOf(x.entry)) && decoded.Ok? && Kept(decoded.value, chosen) != map[] then
      Ok(Kept(decoded.value, chosen))
    else decoded
  }

  lemma {:induction false} ListingNames(xs: seq<Shown>, picked: string -> bool, chosen: set<Platform>)
    requires ListingsOf(xs, picked, chosen).Ok? && HaveDistinctEntryNames(xs)
    ensures forall l <- ListingsOf(xs, picked, chosen).value :: exists x <- xs :: l.name == NameOf(x.entry)
    ensures HaveDistinctNames(ListingsOf(xs, picked, chosen).value)
  {
    hide AclOf, Kept, KeptOrder, NameOf;
    if xs != [] {
      assert forall x <- xs[1..] :: NameOf(x.entry) != NameOf(xs[0].entry);
      ListingNames(xs[1..], picked, chosen);
    }
  }

  lemma {:induction false} RestoredEntryAcls(xs: seq<Shown>, picked: string -> bool, chosen: set<Platform>, i: nat)
    requires ListingsOf(xs, picked, chosen).Ok? && HaveDistinctEntryNames(xs) && i < |xs|
    ensures
      var x, dump := xs[i], RestoredOf(ListingsOf(xs, picked, chosen).value);
      var shown := if picked(NameOf(x.entry)) && AclOf(x.entry.extra).Ok?
                   then Kept(AclOf(x.entry.extra).value, chosen) else map[];
      if NameOf(x.entry) in dump then dump[NameOf(x.entry)] == shown && shown != map[] else shown == map[]
  {
    hide AclOf, Kept, KeptOrder, NameOf;
    var rest := ListingsOf(xs[1..], picked, chosen);
    if i == 0 {
      ListingNames(xs, picked, chosen);
      NotRestored(xs[1..], picked, chosen, NameOf(xs[0].entry));
    } else {
      RestoredEntryAcls(xs[1..], picked, chosen, i - 1);
    }
  }

  lemma {:induction false} NotRestored(xs: seq<Shown>, picked: string -> bool, chosen: set<Platform>, name: string)
    requires ListingsOf(xs, picked, chosen).Ok? && forall x <- xs :: NameOf(x.entry) != name
    ensures name !in RestoredOf(ListingsOf(xs, picked, chosen).value)
  {
    hide AclOf, Kept, KeptOrder, NameOf;
    if xs != [] {
      NotRestored(xs[1..], picked, chosen, name);
    }
  }

  /**
   * Backing up and restoring: for entries with distinct names, if no text holds a line feed and
   * no name or platform ends in a return, each entry restored from the dump has the ACLs that
   * were shown of it, or its own if none were. With all platforms chosen that is the entry's own ACLs in any case.
   * The other extra chunks stay, in order, and neither iteration order matters.
   */
  lemma BackupRestores(
    xs: seq<Shown>, picked: string -> bool, chosen: set<Platform>, i: nat, dump: Restored, order: seq<Platform>)
    requires i < |xs| && HaveDistinctEntryNames(xs) && forall x <- xs :: IsShown(x)
    requires ListingsOf(xs, picked, chosen).Ok?
    requires AreListings(ListingsOf(xs, picked, chosen).value)
    requires forall l <- ListingsOf(xs, picked, chosen).value :: IsPrintable(l) && IsLine(l.name)
    requires ReadDump(Printed(DumpLines(ListingsOf(xs, picked, chosen).value))) == Ok(dump)
    requires NameOf(xs[i].entry) in dump ==> Orders(order, dump[NameOf(xs[i].entry)])
    ensures
      var e := xs[i].entry;
      var extra := RestoredExtra(e, dump, order);
      Others(extra) == Others(e.extra) &&
      AclOf(extra) == ExpectedAcls(xs[i], picked, chosen) &&
      (chosen == {} ==> AclOf(extra) == AclOf(e.extra))
  {
    hide AclOf, Kept, NameOf, ListingsOf, DumpLines, Printed, ReadDump, Orders, WithAcls, RestoredOf,
      IsPlainAcls, HaveDistinctNames, HaveDistinctEntryNames, IsPrintable, IsStorable, AreListings, IsLine,
      HasKeptName, AllAsRead;
    var e := xs[i].entry;
    ListingNames(xs, picked, chosen);
    DistinctAsRead(ListingsOf(xs, picked, chosen).value);
    LinesKeepNames(ListingsOf(xs, picked, chosen).value);
    DumpRoundTrip(ListingsOf(xs, picked, chosen).value);
    RestoredEntryAcls(xs, picked, chosen, i);
    assert IsShown(xs[i]);
    if AclOf(e.extra).Ok? {
      DecodedIsPlain(e.extra);
      KeptIsPlain(AclOf(e.extra).value, xs[i].order, chosen);
    }
    if NameOf(e) in dump {
      var shown := dump[NameOf(e)];
      PlainIsStorable(shown);
      WithAclsMeans(e.extra, shown, order);
    }
  }

  lemma PlainIsStorable(m: Acls)
    requires IsPlainAcls(m)
    ensures IsStorable(m) && NonEmpty(m) == m
  {
    hide IsPlainAce, IsCanonical;
  }

  lemma LinesKeepNames(ls: seq<Listing>)
    requires forall l <- ls :: IsLine(l.name)
    ensures forall l <- ls :: HasKeptName(l)
  {
  }

  /** A dump always reads back, whatever the names in it, if no text in it holds a line feed. */
  lemma BackupReads(xs: seq<Shown>, picked: string -> bool, chosen: set<Platform>)
    requires forall x <- xs :: IsShown(x)
    requires ListingsOf(xs, picked, chosen).Ok?
    requires forall l <- ListingsOf(xs, picked, chosen).value :: IsPrintable(l)
    ensures AreListings(ListingsOf(xs, picked, chosen).value)
    ensures ReadDump(Printed(DumpLines(ListingsOf(xs, picked, chosen).value))).Ok?
  {
    hide AclOf, Kept, NameOf, ListingsOf, DumpLines, Printed, ReadDump, Orders, IsPrintable, Collected, DumpSays;
    ListingsAreListings(xs, picked, chosen);
    DumpReadsAs(ListingsOf(xs, picked, chosen).value);
  }

  /** What is shown of an entry's ACLs: all of them, or those of the chosen platforms alone. */
  lemma ShownAcls(m: Acls, chosen: set<Platform>, p: Platform)
    ensures ListOf(Kept(m, chosen), p) == if chosen == {} || p in chosen then ListOf(m, p) else []
    ensures p in Kept(m, chosen) ==> p in m
  {
  }
}
