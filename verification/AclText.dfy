/** The text of an access control entry (ACE), with and without its platform. */
module AclText {
  import opened Basics
  import opened Words

  // ---------------------------------------------------------------- name tables

  datatype Flag =
    | Default | FileInherit | DirectoryInherit | OnlyInherit | LimitInherit | Inherited

  datatype Permission =
    | Read | Write | Execute | Delete | Append | DeleteChild | ReadAttr | WriteAttr
    | ReadExtAttr | WriteExtAttr | ReadSecurity | WriteSecurity | Chown | Sync
    | ReadData | WriteData

  // The names an item is read by; the first is the one it is printed with.

  function FlagNames(f: Flag): (names: seq<string>)
    ensures names != []
  {
    match f
    case Default => ["d", "default"]
    case FileInherit => ["file_inherit"]
    case DirectoryInherit => ["directory_inherit"]
    case OnlyInherit => ["only_inherit"]
    case LimitInherit => ["limit_inherit"]
    case Inherited => ["inherited"]
  }

  function PermissionNames(p: Permission): (names: seq<string>)
    ensures names != []
  {
    match p
    case Read => ["r", "read"]
    case Write => ["w", "write"]
    case Execute => ["x", "execute"]
    case Delete => ["delete"]
    case Append => ["append"]
    case DeleteChild => ["delete_child"]
    case ReadAttr => ["readattr"]
    case WriteAttr => ["writeattr"]
    case ReadExtAttr => ["readextattr"]
    case WriteExtAttr => ["writeextattr"]
    case ReadSecurity => ["readsecurity"]
    case WriteSecurity => ["writesecurity"]
    case Chown => ["chown"]
    case Sync => ["sync"]
    case ReadData => ["read_data"]
    case WriteData => ["write_data"]
  }

  // The order of the rows of the two tables.

  const FLAGS := [Default, FileInherit, DirectoryInherit, OnlyInherit, LimitInherit, Inherited]

  const PERMISSIONS := [
    Read, Write, Execute, Delete, Append, DeleteChild, ReadAttr, WriteAttr,
    ReadExtAttr, WriteExtAttr, ReadSecurity, WriteSecurity, Chown, Sync,
    ReadData, WriteData]

  predicate IsNameChar(c: char) {
    'a' <= c <= 'z' || c == '_'
  }

  predicate IsName(n: string) {
    n != "" && forall c <- n :: IsNameChar(c)
  }

  /** No two rows have names that agree in both length and first letter. */
  function FlagWith(length: nat, initial: char): Option<Flag> {
    if initial == 'd' then
      if length == 17 then Some(DirectoryInherit) else Some(Default)
    else if initial == 'f' then Some(FileInherit)
    else if initial == 'o' then Some(OnlyInherit)
    else if initial == 'l' then Some(LimitInherit)
    else if initial == 'i' then Some(Inherited)
    else None
  }

  function PermissionWith(length: nat, initial: char): Option<Permission> {
    if initial == 'r' then
      if length == 8 then Some(ReadAttr)
      else if length == 9 then Some(ReadData)
      else if length == 11 then Some(ReadExtAttr)
      else if length == 12 then Some(ReadSecurity)
      else Some(Read)
    else if initial == 'w' then
      if length == 9 then Some(WriteAttr)
      else if length == 10 then Some(WriteData)
      else if length == 12 then Some(WriteExtAttr)
      else if length == 13 then Some(WriteSecurity)
      else Some(Write)
    else if initial == 'd' then
      if length == 6 then Some(Delete) else Some(DeleteChild)
    else if initial == 'a' then Some(Append)
    else if initial == 'c' then Some(Chown)
    else if initial == 's' then Some(Sync)
    else if initial == 'x' || initial == 'e' then Some(Execute)
    else None
  }

  lemma FlagNamesPlain(f: Flag, n: string)
    requires n in FlagNames(f)
    ensures IsName(n)
  {
    if |n| <= 11 { ShortFlagNamesPlain(f, n); } else { LongFlagNamesPlain(f, n); }
  }

  lemma ShortFlagNamesPlain(f: Flag, n: string)
    requires n in FlagNames(f) && |n| <= 11
    ensures IsName(n)
  {
  }

  lemma LongFlagNamesPlain(f: Flag, n: string)
    requires n in FlagNames(f) && |n| > 11
    ensures IsName(n)
  {
  }

  lemma PermissionNamesPlain(p: Permission, n: string)
    requires n in PermissionNames(p)
    ensures IsName(n)
  {
    if |n| <= 8 {
      ShortNamesPlain(p, n);
    } else if |n| <= 10 {
      MiddleNamesPlain(p, n);
    } else {
      LongNamesPlain(p, n);
    }
  }

  lemma ShortNamesPlain(p: Permission, n: string)
    requires n in PermissionNames(p) && |n| <= 8
    ensures IsName(n)
  {
  }

  lemma MiddleNamesPlain(p: Permission, n: string)
    requires n in PermissionNames(p) && 8 < |n| <= 10
    ensures IsName(n)
  {
  }

  lemma LongNamesPlain(p: Permission, n: string)
    requires n in PermissionNames(p) && |n| > 10
    ensures IsName(n)
  {
  }

  lemma FlagNamed(f: Flag, n: string)
    requires n in FlagNames(f)
    ensures n != "" && FlagWith(|n|, n[0]) == Some(f)
  {
  }

  lemma PermissionNamed(p: Permission, n: string)
    requires n in PermissionNames(p)
    ensures n != "" && PermissionWith(|n|, n[0]) == Some(p)
  {
  }

  lemma AllListed(f: Flag, p: Permission)
    ensures f in FLAGS && p in PERMISSIONS
  {
  }

  // ---------------------------------------------------------------- lists of names

  /** The items of a table in its order, with the names of each. */
  datatype Table<!F> = Table(order: seq<F>, names: F -> seq<string>, with: (nat, char) -> Option<F>)

  const FLAG_TABLE := Table(FLAGS, FlagNames, FlagWith)
  const PERMISSION_TABLE := Table(PERMISSIONS, PermissionNames, PermissionWith)

  /** Each item has a plain name, and a name's length and first letter tell its item. */
  ghost predicate Named<F>(t: Table<F>) {
    forall f <- t.order ::
      t.names(f) != [] &&
      forall n <- t.names(f) :: IsName(n) && t.with(|n|, n[0]) == Some(f)
  }

  /** The printed names of the chosen items, in table order. */
  function Selected<F(==)>(order: seq<F>, names: F -> seq<string>, chosen: set<F>): seq<string> {
    if order == [] then []
    else
      (if order[0] in chosen && names(order[0]) != [] then [names(order[0])[0]] else [])
      + Selected(order[1..], names, chosen)
  }

  predicate Mentions(names: seq<string>, words: seq<string>) {
    exists n <- names :: n in words
  }

  /** The items that some word names; other words are passed over. */
  function Recognised<F(==)>(order: seq<F>, names: F -> seq<string>, words: seq<string>): set<F> {
    set f | f in order && Mentions(names(f), words)
  }

  /** A list is separated by commas if it holds one, and by bars if not. */
  function WordsOf(text: string): seq<string> {
    if ',' in text then Split(text, ',') else Split(text, '|')
  }

  lemma {:induction false} SelectedMember<F>(order: seq<F>, names: F -> seq<string>, chosen: set<F>, w: string)
    ensures w in Selected(order, names, chosen) <==>
            exists f :: f in order && f in chosen && names(f) != [] && w == names(f)[0]
  {
    if order != [] {
      SelectedMember(order[1..], names, chosen, w);
      assert order == [order[0]] + order[1..];
    }
  }

  /** A printed list is made of name characters and bars. */
  lemma ListPlain<F>(t: Table<F>, chosen: set<F>, c: char)
    requires Named(t) && c != '|' && !IsNameChar(c)
    ensures AllFree(Selected(t.order, t.names, chosen), c)
    ensures Free(Join(Selected(t.order, t.names, chosen), '|'), c)
  {
    hide Selected;
    var picked := Selected(t.order, t.names, chosen);
    forall w <- picked ensures Free(w, c) {
      SelectedMember(t.order, t.names, chosen, w);
    }
    JoinFree(picked, '|', c);
  }

  /** The names printed for some items are recognised as just those items. */
  lemma RecognisedSelected<F>(t: Table<F>, chosen: set<F>)
    requires Named(t) && forall f <- chosen :: f in t.order
    ensures Recognised(t.order, t.names, Selected(t.order, t.names, chosen)) == chosen
  {
    hide Selected;
    var picked := Selected(t.order, t.names, chosen);
    forall f <- t.order ensures f in chosen <==> Mentions(t.names(f), picked) {
      if f in chosen {
        SelectedMember(t.order, t.names, chosen, t.names(f)[0]);
      }
      if Mentions(t.names(f), picked) {
        var n :| n in t.names(f) && n in picked;
        SelectedMember(t.order, t.names, chosen, n);
      }
    }
  }

  /** Reading a printed list back gives the items it was printed from. */
  lemma ListRoundTrip<F>(t: Table<F>, chosen: set<F>)
    requires Named(t) && forall f <- chosen :: f in t.order
    ensures Recognised(t.order, t.names, WordsOf(Join(Selected(t.order, t.names, chosen), '|'))) == chosen
  {
    hide Selected, Join;
    var picked := Selected(t.order, t.names, chosen);
    ListPlain(t, chosen, ',');
    forall w <- picked ensures Free(w, '|') {
      SelectedMember(t.order, t.names, chosen, w);
    }
    var words := WordsOf(Join(picked, '|'));
    if picked == [] {
      assert Join(picked, '|') == "" by { NothingJoined('|'); }
      assert words == [""];
    } else {
      SplitJoin(picked, '|');
      assert words == picked;
    }
    if picked == [] {
      NothingNamed(t);
    }
    RecognisedSelected(t, chosen);
  }

  /** No item is named by nothing. */
  lemma NothingNamed<F>(t: Table<F>)
    requires Named(t)
    ensures Recognised(t.order, t.names, [""]) == Recognised(t.order, t.names, [])
  {
    forall f <- t.order ensures !Mentions(t.names(f), [""]) && !Mentions(t.names(f), []) {
      assert "" in t.names(f) ==> IsName("");
    }
  }

  lemma NothingJoined(sep: char)
    ensures Join([], sep) == ""
  {
  }

  lemma TablesNamed()
    ensures Named(FLAG_TABLE) && Named(PERMISSION_TABLE)
  {
    hide FlagNames, FlagWith, PermissionNames, PermissionWith, IsName, FLAGS, PERMISSIONS;
    forall f <- FLAGS, n <- FlagNames(f) ensures n != "" && IsName(n) && FlagWith(|n|, n[0]) == Some(f) {
      FlagNamesPlain(f, n);
      FlagNamed(f, n);
    }
    forall p <- PERMISSIONS, n <- PermissionNames(p)
      ensures n != "" && IsName(n) && PermissionWith(|n|, n[0]) == Some(p)
    {
      PermissionNamesPlain(p, n);
      PermissionNamed(p, n);
    }
  }

  /**
   * A list may be separated by commas or by bars, and each item be given by any of its names.
   * Once there is a comma, a bar separates nothing.
   */
  lemma ListSpellings<F>(t: Table<F>, words: seq<string>, f: F)
    requires words != [] && AllFree(words, ',') && f in t.order
    ensures |words| > 1 || AllFree(words, '|') ==>
      (f in Recognised(t.order, t.names, WordsOf(Join(words, ','))) <==> exists n <- t.names(f) :: n in words)
    ensures AllFree(words, '|') ==>
      (f in Recognised(t.order, t.names, WordsOf(Join(words, '|'))) <==> exists n <- t.names(f) :: n in words)
  {
    hide Split, Join;
    SplitJoin(words, ',');
    if AllFree(words, '|') {
      SplitJoin(words, '|');
      JoinFree(words, '|', ',');
    }
    if ',' !in Join(words, ',') {
      SplitFree(Join(words, ','), ',');
      assert words == [Join(words, ',')];
      JoinOne(words[0], '|');
      assert words[0] in words;
      if AllFree(words, '|') {
        SplitFree(words[0], '|');
      }
    }
  }

  // ---------------------------------------------------------------- entries

  datatype OwnerType =
    | Owner | User(id: string) | OwnerGroup | Group(id: string) | Mask | Other

  datatype Ace = Ace(flags: set<Flag>, owner: OwnerType, allow: bool, permission: set<Permission>)

  datatype AceError =
    | NotEnoughElement | TooManyElement
    | UnexpectedAccessControl(found: string) | UnexpectedOwnerType(found: string)

  type AceResult<+T> = Result<T, AceError>

  function OwnerText(o: OwnerType): string {
    match o
    case Owner => "u:"
    case User(i) => "u:" + i
    case OwnerGroup => "g:"
    case Group(i) => "g:" + i
    case Mask => "m:"
    case Other => "o:"
  }

  function FlagsText(flags: set<Flag>): string {
    Join(Selected(FLAGS, FlagNames, flags), '|')
  }

  function PermissionsText(permission: set<Permission>): string {
    Join(Selected(PERMISSIONS, PermissionNames, permission), '|')
  }

  function VerdictText(allow: bool): string {
    if allow then "allow" else "deny"
  }

  /** `Display for Ace`. */
  function AceText(a: Ace): string {
    FlagsText(a.flags) + ":" + OwnerText(a.owner) + ":" + VerdictText(a.allow)
    + ":" + PermissionsText(a.permission)
  }

  /** The owner that a type and a name spell; the name of a mask or other is ignored. */
  function OwnerOf(kind: string, name: string): AceResult<OwnerType> {
    if kind == "u" || kind == "user" then
      Ok(if name == "" then Owner else User(name))
    else if kind == "g" || kind == "group" then
      Ok(if name == "" then OwnerGroup else Group(name))
    else if kind == "m" || kind == "mask" then Ok(Mask)
    else if kind == "o" || kind == "other" then Ok(Other)
    else Err(UnexpectedOwnerType(kind))
  }

  function VerdictOf(word: string): AceResult<bool> {
    if word == "allow" then Ok(true)
    else if word == "deny" then Ok(false)
    else Err(UnexpectedAccessControl(word))
  }

  function FlagsOf(text: string): set<Flag> {
    Recognised(FLAGS, FlagNames, WordsOf(text))
  }

  function PermissionsOf(text: string): set<Permission> {
    Recognised(PERMISSIONS, PermissionNames, WordsOf(text))
  }

  /** The entry that the pieces of a text spell; an owner is judged before a later gap is. */
  function FromPieces(p: seq<string>): AceResult<Ace> {
    if |p| < 3 then Err(NotEnoughElement)
    else
      var owner :- OwnerOf(p[1], p[2]);
      if |p| < 4 then Err(NotEnoughElement)
      else
        var allow :- VerdictOf(p[3]);
        if |p| < 5 then Err(NotEnoughElement)
        else if |p| > 5 then Err(TooManyElement)
        else Ok(Ace(FlagsOf(p[0]), owner, allow, PermissionsOf(p[4])))
  }

  /** `FromStr for Ace`. */
  function AceOf(s: string): AceResult<Ace> {
    FromPieces(Split(s, ':'))
  }

  // ---------------------------------------------------------------- which texts are entries

  /** Owner, group, mask and other: each type has a short and a long name, and only those. */
  predicate IsOwnerName(kind: string) {
    kind in ["u", "user", "g", "group", "m", "mask", "o", "other"]
  }

  /** Long names mean what the short ones do; a user or group without a name is the owning one. */
  lemma OwnerSpellings(name: string)
    ensures OwnerOf("user", name) == OwnerOf("u", name) == Ok(if name == "" then Owner else User(name))
    ensures OwnerOf("group", name) == OwnerOf("g", name) == Ok(if name == "" then OwnerGroup else Group(name))
    ensures OwnerOf("mask", name) == OwnerOf("m", name) == Ok(Mask)
    ensures OwnerOf("other", name) == OwnerOf("o", name) == Ok(Other)
    ensures forall kind :: !IsOwnerName(kind) ==> OwnerOf(kind, name) == Err(UnexpectedOwnerType(kind))
  {
  }

  /**
   * Which texts are entries, and what is wrong with the others. Going by the pieces between
   * colons: a bad owner type is reported as soon as there are three pieces, a bad verdict as
   * soon as there are four, and only then too few or too many of them.
   */
  lemma AceVerdict(s: string)
    ensures var p := Split(s, ':');
      var badOwner := |p| >= 3 && !IsOwnerName(p[1]);
      var badVerdict := !badOwner && |p| >= 4 && p[3] != "allow" && p[3] != "deny";
      (badOwner ==> AceOf(s) == Err(UnexpectedOwnerType(p[1]))) &&
      (badVerdict ==> AceOf(s) == Err(UnexpectedAccessControl(p[3]))) &&
      (!badOwner && !badVerdict && |p| < 5 ==> AceOf(s) == Err(NotEnoughElement)) &&
      (!badOwner && !badVerdict && |p| > 5 ==> AceOf(s) == Err(TooManyElement)) &&
      (!badOwner && !badVerdict && |p| == 5 ==>
        AceOf(s).Ok? && (AceOf(s).value.allow <==> p[3] == "allow") &&
        OwnerOf(p[1], p[2]) == Ok(AceOf(s).value.owner) &&
        AceOf(s).value.flags == FlagsOf(p[0]) && AceOf(s).value.permission == PermissionsOf(p[4]))
  {
    hide Split, FlagsOf, PermissionsOf;
    if |Split(s, ':')| >= 3 {
      OwnerSpellings(Split(s, ':')[2]);
    }
  }

  /** A single name, short or long, is read as the one item that bears it. */
  lemma NameAlone<F>(t: Table<F>, f: F, n: string)
    requires Named(t) && f in t.order && n in t.names(f)
    ensures Recognised(t.order, t.names, WordsOf(n)) == {f}
  {
    hide Split;
    assert IsName(n) && t.with(|n|, n[0]) == Some(f);
    assert Free(n, '|') && Free(n, ',');
    SplitFree(n, '|');
    forall g <- t.order ensures g == f <==> Mentions(t.names(g), [n]) {
      if Mentions(t.names(g), [n]) {
        assert n in t.names(g);
      }
    }
  }

  lemma FlagSpelt(f: Flag, n: string)
    requires n in FlagNames(f)
    ensures FlagsOf(n) == {f}
  {
    hide FlagNames, FlagWith, FLAGS, Recognised, WordsOf, Named;
    TablesNamed();
    FlagListed(f);
    NameAlone(FLAG_TABLE, f, n);
  }

  lemma FlagListed(f: Flag)
    ensures f in FLAGS
  {
  }

  lemma PermissionSpelt(p: Permission, n: string)
    requires n in PermissionNames(p)
    ensures PermissionsOf(n) == {p}
  {
    hide PermissionNames, PermissionWith, PERMISSIONS, Recognised, WordsOf, Named;
    TablesNamed();
    PermissionListed(p);
    NameAlone(PERMISSION_TABLE, p, n);
  }

  lemma PermissionListed(p: Permission)
    ensures p in PERMISSIONS
  {
  }

  /** The names of the flags. */
  lemma FlagSpellings()
    ensures FlagsOf("d") == {Default} && FlagsOf("default") == {Default}
    ensures FlagsOf("file_inherit") == {FileInherit} && FlagsOf("directory_inherit") == {DirectoryInherit}
    ensures FlagsOf("only_inherit") == {OnlyInherit} && FlagsOf("limit_inherit") == {LimitInherit}
    ensures FlagsOf("inherited") == {Inherited}
  {
    hide FlagsOf;
    FlagSpelt(Default, "d");
    FlagSpelt(Default, "default");
    FlagSpelt(FileInherit, "file_inherit");
    FlagSpelt(DirectoryInherit, "directory_inherit");
    FlagSpelt(OnlyInherit, "only_inherit");
    FlagSpelt(LimitInherit, "limit_inherit");
    FlagSpelt(Inherited, "inherited");
  }

  /** The names of the permissions. */
  lemma PermissionSpellings()
    ensures PermissionsOf("r") == {Read} && PermissionsOf("read") == {Read}
    ensures PermissionsOf("w") == {Write} && PermissionsOf("write") == {Write}
    ensures PermissionsOf("x") == {Execute} && PermissionsOf("execute") == {Execute}
    ensures PermissionsOf("delete") == {Delete} && PermissionsOf("append") == {Append}
    ensures PermissionsOf("delete_child") == {DeleteChild} && PermissionsOf("readattr") == {ReadAttr}
    ensures PermissionsOf("writeattr") == {WriteAttr} && PermissionsOf("readextattr") == {ReadExtAttr}
    ensures PermissionsOf("writeextattr") == {WriteExtAttr} && PermissionsOf("readsecurity") == {ReadSecurity}
    ensures PermissionsOf("writesecurity") == {WriteSecurity} && PermissionsOf("chown") == {Chown}
    ensures PermissionsOf("sync") == {Sync} && PermissionsOf("read_data") == {ReadData}
    ensures PermissionsOf("write_data") == {WriteData}
  {
    hide PermissionsOf;
    PermissionSpelt(Read, "r");
    PermissionSpelt(Read, "read");
    PermissionSpelt(Write, "w");
    PermissionSpelt(Write, "write");
    PermissionSpelt(Execute, "x");
    PermissionSpelt(Execute, "execute");
    PermissionSpelt(Delete, "delete");
    PermissionSpelt(Append, "append");
    PermissionSpelt(DeleteChild, "delete_child");
    PermissionSpelt(ReadAttr, "readattr");
    PermissionSpelt(WriteAttr, "writeattr");
    PermissionSpelt(ReadExtAttr, "readextattr");
    PermissionSpelt(WriteExtAttr, "writeextattr");
    PermissionSpelt(ReadSecurity, "readsecurity");
    PermissionSpelt(WriteSecurity, "writesecurity");
    PermissionSpelt(Chown, "chown");
    PermissionSpelt(Sync, "sync");
    PermissionSpelt(ReadData, "read_data");
    PermissionSpelt(WriteData, "write_data");
  }

  /** What an identifier must be to survive being printed. */
  predicate IsPlain(i: string) {
    i != "" && Free(i, ':')
  }

  predicate IsPlainOwner(o: OwnerType) {
    (o.User? || o.Group?) ==> IsPlain(o.id)
  }

  predicate IsPlainAce(a: Ace) {
    IsPlainOwner(a.owner)
  }

  function OwnerKind(o: OwnerType): string {
    match o
    case Owner | User(_) => "u"
    case OwnerGroup | Group(_) => "g"
    case Mask => "m"
    case Other => "o"
  }

  function OwnerName(o: OwnerType): string {
    if o.User? || o.Group? then o.id else ""
  }

  lemma FlagsAndPermissionsFree(a: Ace)
    ensures forall c | c == ':' || c == '\n' || c == '\r' ::
      Free(FlagsText(a.flags), c) && Free(PermissionsText(a.permission), c)
    ensures FlagsOf(FlagsText(a.flags)) == a.flags
    ensures PermissionsOf(PermissionsText(a.permission)) == a.permission
  {
    hide Named, FLAGS, PERMISSIONS;
    TablesNamed();
    forall f <- a.flags ensures f in FLAG_TABLE.order {
      AllListed(f, Read);
    }
    forall p <- a.permission ensures p in PERMISSION_TABLE.order {
      AllListed(Default, p);
    }
    forall c | c == ':' || c == '\n' || c == '\r'
      ensures Free(FlagsText(a.flags), c) && Free(PermissionsText(a.permission), c)
    {
      ListPlain(FLAG_TABLE, a.flags, c);
      ListPlain(PERMISSION_TABLE, a.permission, c);
    }
    ListRoundTrip(FLAG_TABLE, a.flags);
    ListRoundTrip(PERMISSION_TABLE, a.permission);
  }

  lemma FivePieces(f: string, k: string, n: string, v: string, p: string)
    requires AllFree([f, k, n, v, p], ':')
    ensures Split(f + ":" + (k + ":" + n) + ":" + v + ":" + p, ':') == [f, k, n, v, p]
  {
    hide Split, SplitOnce, Free;
    var all := [f, k, n, v, p];
    assert Free(all[0], ':') && Free(all[1], ':') && Free(all[2], ':') && Free(all[3], ':') && Free(all[4], ':');
    assert f + ":" + (k + ":" + n) + ":" + v + ":" + p == f + ":" + (k + ":" + (n + ":" + (v + ":" + p)));
    SplitFree(p, ':');
    SplitAt(v, ':', p);
    SplitAt(n, ':', v + ":" + p);
    SplitAt(k, ':', n + ":" + (v + ":" + p));
    SplitAt(f, ':', k + ":" + (n + ":" + (v + ":" + p)));
  }

  lemma AceTextPieces(a: Ace)
    requires IsPlainAce(a)
    ensures Split(AceText(a), ':') ==
            [FlagsText(a.flags), OwnerKind(a.owner), OwnerName(a.owner), VerdictText(a.allow),
             PermissionsText(a.permission)]
  {
    hide FlagsText, PermissionsText, Split;
    FlagsAndPermissionsFree(a);
    assert OwnerText(a.owner) == OwnerKind(a.owner) + ":" + OwnerName(a.owner);
    FivePieces(FlagsText(a.flags), OwnerKind(a.owner), OwnerName(a.owner), VerdictText(a.allow),
               PermissionsText(a.permission));
  }

  /** Whatever a text spells can be printed without loss. */
  lemma ParsedIsPlain(s: string)
    ensures AceOf(s).Ok? ==> IsPlainAce(AceOf(s).value)
  {
    hide Split, FlagsOf, PermissionsOf;
    var p := Split(s, ':');
    SplitPieces(s, ':');
    if |p| > 2 {
      assert Free(p[2], ':');
    }
  }

  lemma OwnerReadsBack(o: OwnerType)
    requires IsPlainOwner(o)
    ensures OwnerOf(OwnerKind(o), OwnerName(o)) == Ok(o)
  {
  }

  /** An entry reads back exactly when its identifier is non-empty and has no colon. */
  lemma AceRoundTripIff(a: Ace)
    ensures AceOf(AceText(a)) == Ok(a) <==> IsPlainAce(a)
  {
    hide AceText, FlagsText, PermissionsText, FlagsOf, PermissionsOf, Split;
    if IsPlainAce(a) {
      AceTextPieces(a);
      FlagsAndPermissionsFree(a);
      OwnerReadsBack(a.owner);
    } else {
      ParsedIsPlain(AceText(a));
    }
  }

  /** Printing settles a text: what it is printed as reads as the same entry. */
  lemma AceTextSettles(s: string)
    requires AceOf(s).Ok?
    ensures AceOf(AceText(AceOf(s).value)) == AceOf(s)
  {
    ParsedIsPlain(s);
    AceRoundTripIff(AceOf(s).value);
  }

  // ---------------------------------------------------------------- parsing, step by step

  /** The iterator that `str::split` returns. */
  class Pieces {
    var rest: seq<string>

    constructor (s: string, sep: char)
      ensures rest == Split(s, sep)
    {
      rest := Split(s, sep);
    }

    method Next() returns (piece: Option<string>)
      modifies this
      ensures piece == (if old(rest) == [] then None else Some(old(rest)[0]))
      ensures rest == (if old(rest) == [] then [] else old(rest)[1..])
    {
      if rest == [] {
        return None;
      }
      piece, rest := Some(rest[0]), rest[1..];
    }
  }

  /** The loop that inserts the flag of every row with a mentioned name. */
  method Recognise<F(==)>(order: seq<F>, names: F -> seq<string>, words: seq<string>) returns (found: set<F>)
    ensures found == Recognised(order, names, words)
  {
    found := {};
    for i := 0 to |order|
      invariant found == Recognised(order[..i], names, words)
    {
      assert order[..i + 1] == order[..i] + [order[i]];
      if Mentions(names(order[i]), words) {
        found := found + {order[i]};
      }
    }
    assert order[..|order|] == order;
  }

  method ParseAce(s: string) returns (r: AceResult<Ace>)
    ensures r == AceOf(s)
  {
    hide Split, WordsOf, Recognised, FLAGS, PERMISSIONS;
    var it := new Pieces(s, ':');
    ghost var p := it.rest;
    var flagList := it.Next();
    if flagList.None? {
      return Err(NotEnoughElement);
    }
    var flags := Recognise(FLAGS, FlagNames, WordsOf(flagList.value));
    var kind := it.Next();
    if kind.None? {
      return Err(NotEnoughElement);
    }
    var name := it.Next();
    if name.None? {
      return Err(NotEnoughElement);
    }
    var owner :- OwnerOf(kind.value, name.value);
    var word := it.Next();
    if word.None? {
      return Err(NotEnoughElement);
    }
    var allow :- VerdictOf(word.value);
    var permissions := it.Next();
    if permissions.None? {
      return Err(NotEnoughElement);
    }
    var permission := Recognise(PERMISSIONS, PermissionNames, WordsOf(permissions.value));
    var more := it.Next();
    if more.Some? {
      return Err(TooManyElement);
    }
    return Ok(Ace(flags, owner, allow, permission));
  }

  // ---------------------------------------------------------------- platforms

  datatype Platform = General | Windows | MacOs | Linux | FreeBSD | Unknown(name: string)

  function PlatformText(p: Platform): string {
    match p
    case General => ""
    case Windows => "windows"
    case MacOs => "macos"
    case Linux => "linux"
    case FreeBSD => "freebsd"
    case Unknown(s) => s
  }

  function PlatformOf(s: string): Platform {
    if s == "" then General
    else if s == "windows" then Windows
    else if s == "macos" then MacOs
    else if s == "linux" then Linux
    else if s == "freebsd" then FreeBSD
    else Unknown(s)
  }

  /** An unknown platform must not bear the name of a known one. */
  predicate IsCanonical(p: Platform) {
    p.Unknown? ==>
      p.name != "" && p.name != "windows" && p.name != "macos" && p.name != "linux" && p.name != "freebsd"
  }

  lemma PlatformRoundTripIff(p: Platform, s: string)
    ensures PlatformOf(PlatformText(p)) == p <==> IsCanonical(p)
    ensures PlatformText(PlatformOf(s)) == s && IsCanonical(PlatformOf(s))
  {
  }

  /** The names of the known platforms. */
  lemma PlatformSpellings()
    ensures PlatformOf("") == General && PlatformOf("windows") == Windows && PlatformOf("macos") == MacOs
    ensures PlatformOf("linux") == Linux && PlatformOf("freebsd") == FreeBSD
  {
  }

  /** An entry that may name the platform it is for. */
  datatype QualifiedAce = QualifiedAce(platform: Option<Platform>, ace: Ace)

  function PlatformOr(p: Option<Platform>, fallback: Platform): Platform {
    if p.Some? then p.value else fallback
  }

  /** `Display for AceWithPlatform`: a missing platform prints as the general one. */
  function QualifiedText(q: QualifiedAce): string {
    PlatformText(PlatformOr(q.platform, General)) + ":" + AceText(q.ace)
  }

  /** `FromStr for AceWithPlatform`: five separators mean that a platform comes first. */
  function QualifiedOf(s: string): AceResult<QualifiedAce> {
    if Count(s, ':') == 5 then
      var cut := SplitOnce(s, ':');
      if cut.None? then Err(NotEnoughElement)
      else
        var ace :- AceOf(cut.value.after);
        Ok(QualifiedAce(Some(PlatformOf(cut.value.before)), ace))
    else
      var ace :- AceOf(s);
      Ok(QualifiedAce(None, ace))
  }

  /** The qualified entries that keep their meaning in print. */
  predicate IsPlainQualified(q: QualifiedAce) {
    var p := PlatformOr(q.platform, General);
    IsPlainAce(q.ace) && IsCanonical(p) && Free(PlatformText(p), ':')
  }

  lemma PlainAceSeparators(a: Ace)
    requires IsPlainAce(a)
    ensures Count(AceText(a), ':') == 4
  {
    hide AceText, FlagsText, PermissionsText;
    AceTextPieces(a);
  }

  lemma {:induction false} CutBefore(s: string, c: char)
    ensures SplitOnce(s, c).Some? <==> !Free(s, c)
    ensures SplitOnce(s, c).Some? ==>
      var cut := SplitOnce(s, c).value;
      Free(cut.before, c) && s == cut.before + [c] + cut.after
  {
    if s != "" {
      var head, tail := [s[0]], s[1..];
      assert s == head + tail;
      if s[0] == c {
        assert s == "" + head + tail;
      } else {
        CutBefore(tail, c);
        var rest := SplitOnce(tail, c);
        if rest.Some? {
          Assoc(head, rest.value.before + [c], rest.value.after);
          Assoc(head, rest.value.before, [c]);
        }
      }
    }
  }

  /** Whatever a qualified text spells can be printed without loss. */
  lemma ReadQualifiedIsPlain(s: string)
    ensures QualifiedOf(s).Ok? ==> IsPlainQualified(QualifiedOf(s).value)
  {
    hide AceOf, IsPlainAce;
    ParsedIsPlain(s);
    CutBefore(s, ':');
    var cut := SplitOnce(s, ':');
    if cut.Some? {
      ParsedIsPlain(cut.value.after);
      PlatformRoundTripIff(General, cut.value.before);
    }
  }

  /**
   * A qualified entry reads back, with a missing platform made the general one, exactly when
   * its identifier is non-empty, neither part has a colon, and the platform is canonical.
   */
  lemma QualifiedRoundTripIff(q: QualifiedAce)
    ensures QualifiedOf(QualifiedText(q)) == Ok(QualifiedAce(Some(PlatformOr(q.platform, General)), q.ace))
            <==> IsPlainQualified(q)
  {
    hide AceText, AceOf, IsPlainAce, PlatformText, PlatformOf, IsCanonical;
    var p := PlatformOr(q.platform, General);
    var s := QualifiedText(q);
    if IsPlainQualified(q) {
      SplitAt(PlatformText(p), ':', AceText(q.ace));
      PlainAceSeparators(q.ace);
      CountFree(PlatformText(p), ':');
      CountAppend(PlatformText(p), ":", ':');
      CountAppend(PlatformText(p) + ":", AceText(q.ace), ':');
      AceRoundTripIff(q.ace);
      PlatformRoundTripIff(p, "");
    } else {
      ReadQualifiedIsPlain(s);
    }
  }

  /** An entry printed without a platform reads as one that names none. */
  lemma UnqualifiedRoundTrip(a: Ace)
    requires IsPlainAce(a)
    ensures QualifiedOf(AceText(a)) == Ok(QualifiedAce(None, a))
  {
    hide AceText, AceOf, IsPlainAce;
    PlainAceSeparators(a);
    AceRoundTripIff(a);
  }

  lemma CountAround(a: string, b: string, c: char)
    ensures Count(a + [c] + b, c) == Count(a, c) + 1 + Count(b, c)
  {
    CountAppend(a, [c], c);
    CountAppend(a + [c], b, c);
    assert [c][1..] == "";
  }

  /** The parts of an entry's text that never hold a colon. */
  lemma ColonlessParts(a: Ace)
    ensures Count(FlagsText(a.flags), ':') == Count(VerdictText(a.allow), ':') == 0
    ensures Count(PermissionsText(a.permission), ':') == Count(OwnerKind(a.owner), ':') == 0
  {
    hide FlagsText, PermissionsText, Count;
    FlagsAndPermissionsFree(a);
    CountFree(FlagsText(a.flags), ':');
    CountFree(VerdictText(a.allow), ':');
    CountFree(PermissionsText(a.permission), ':');
    CountFree(OwnerKind(a.owner), ':');
  }

  lemma NamedOwnerText(o: OwnerType)
    requires o.User? || o.Group?
    ensures OwnerText(o) == OwnerKind(o) + ":" + o.id
  {
  }

  lemma AceTextSeparators(a: Ace)
    requires a.owner.User? || a.owner.Group?
    ensures Count(AceText(a), ':') == 4 + Count(a.owner.id, ':')
  {
    hide FlagsText, PermissionsText, VerdictText, OwnerText, OwnerKind, Count;
    ColonlessParts(a);
    NamedOwnerText(a.owner);
    var f, o, v := FlagsText(a.flags), OwnerText(a.owner), VerdictText(a.allow);
    CountAround(OwnerKind(a.owner), a.owner.id, ':');
    CountAround(f, o, ':');
    CountAround(f + ":" + o, v, ':');
    CountAround(f + ":" + o + ":" + v, PermissionsText(a.permission), ':');
  }

  /**
   * An identifier with a colon does not just fail: with one colon whose left side spells an
   * owner type, the printed flags are read as a platform and another owner comes out.
   */
  lemma ColonIdentifierMisreads(a: Ace)
    requires (a.owner.User? || a.owner.Group?) && !Free(a.owner.id, ':')
    ensures SplitOnce(a.owner.id, ':').Some?
    ensures
      var cut := SplitOnce(a.owner.id, ':').value;
      var owner := OwnerOf(cut.before, cut.after);
      (QualifiedOf(AceText(a)).Ok? <==> Free(cut.after, ':') && owner.Ok?) &&
      (QualifiedOf(AceText(a)).Ok? ==>
        QualifiedOf(AceText(a)).value ==
        QualifiedAce(Some(PlatformOf(FlagsText(a.flags))),
                     Ace(FlagsOf(OwnerKind(a.owner)), owner.value, a.allow, a.permission)))
  {
    hide AceText, FromPieces, Split, SplitOnce, Count, FlagsText, OwnerOf, PlatformOf, FlagsOf, OwnerKind;
    var id := a.owner.id;
    CutBefore(id, ':');
    AceTextSeparators(a);
    var cut := SplitOnce(id, ':').value;
    CountAround(cut.before, cut.after, ':');
    CountFree(cut.before, ':');
    CountFree(cut.after, ':');
    if Free(cut.after, ':') {
      SixPieces(a, cut);
    } else {
      TooManyColons(AceText(a));
    }
  }

  /** With one colon in the identifier there are six pieces, and the last five are read as an entry. */
  lemma SixPieces(a: Ace, cut: Cut)
    requires (a.owner.User? || a.owner.Group?) && a.owner.id == cut.before + ":" + cut.after
    requires Free(cut.before, ':') && Free(cut.after, ':')
    ensures SplitOnce(AceText(a), ':').Some?
    ensures
      var halves := SplitOnce(AceText(a), ':').value;
      var owner := OwnerOf(cut.before, cut.after);
      halves.before == FlagsText(a.flags) &&
      AceOf(halves.after) ==
        if owner.Err? then Err(owner.error)
        else Ok(Ace(FlagsOf(OwnerKind(a.owner)), owner.value, a.allow, a.permission))
  {
    hide FlagsText, PermissionsText, Split, SplitOnce, OwnerOf, OwnerKind, OwnerText, FlagsOf, PermissionsOf,
      VerdictText;
    FlagsAndPermissionsFree(a);
    ColonlessParts(a);
    NamedOwnerText(a.owner);
    VerdictRoundTrip(a.allow);
    var f, k, v, p := FlagsText(a.flags), OwnerKind(a.owner), VerdictText(a.allow), PermissionsText(a.permission);
    CountFree(k, ':');
    CountFree(v, ':');
    var rest := k + ":" + (cut.before + ":" + cut.after) + ":" + v + ":" + p;
    Regrouped(f, k + ":" + (cut.before + ":" + cut.after), v, p);
    SplitAt(f, ':', rest);
    FivePieces(k, cut.before, cut.after, v, p);
  }

  lemma Regrouped(f: string, o: string, v: string, p: string)
    ensures f + ":" + o + ":" + v + ":" + p == f + ":" + (o + ":" + v + ":" + p)
  {
  }

  lemma VerdictRoundTrip(allow: bool)
    ensures VerdictOf(VerdictText(allow)) == Ok(allow)
  {
  }

  lemma TooManyColons(s: string)
    requires Count(s, ':') > 5
    ensures QualifiedOf(s).Err?
  {
    hide Count, Split;
  }

  /** For one: a default entry of the user `g:y` comes back as one of the group `y`, on a platform `d`. */
  lemma ColonInstance(permission: set<Permission>)
    ensures QualifiedOf(AceText(Ace({Default}, User("g:y"), true, permission))) ==
            Ok(QualifiedAce(Some(Unknown("d")), Ace({}, Group("y"), true, permission)))
  {
    hide AceText, QualifiedOf, FlagsText, FlagsOf, SplitOnce;
    SplitAt("g", ':', "y");
    assert "g:y" == "g" + [':'] + "y";
    ColonIdentifierMisreads(Ace({Default}, User("g:y"), true, permission));
    DefaultText();
    NoSuchPlatform();
    NoFlagIsU();
  }

  lemma DefaultText()
    ensures FlagsText({Default}) == "d"
  {
    hide FlagNames, FLAGS, Join;
    FirstFlag();
    NoneSelected(FLAGS[1..], FlagNames, {Default});
    assert Selected(FLAGS, FlagNames, {Default}) == ["d"];
    JoinOne("d", '|');
  }

  lemma FirstFlag()
    ensures FLAGS != [] && FLAGS[0] == Default && Default !in FLAGS[1..]
    ensures FlagNames(Default)[0] == "d"
  {
  }

  lemma NoSuchPlatform()
    ensures PlatformOf("d") == Unknown("d")
  {
  }

  lemma {:induction false} NoneSelected<F>(order: seq<F>, names: F -> seq<string>, chosen: set<F>)
    requires forall f <- order :: f !in chosen
    ensures Selected(order, names, chosen) == []
  {
    if order != [] {
      NoneSelected(order[1..], names, chosen);
    }
  }

  lemma NoFlagIsU()
    ensures FlagsOf("u") == {}
  {
    hide FlagNames;
    SplitFree("u", '|');
    assert WordsOf("u") == ["u"];
    forall f <- FLAGS ensures !Mentions(FlagNames(f), ["u"]) {
      if Mentions(FlagNames(f), ["u"]) {
        FlagNamed(f, "u");
      }
    }
  }
}
