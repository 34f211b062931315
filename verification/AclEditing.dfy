/** Setting, modifying and removing ACEs of one platform of an entry. */
module AclEditing {
  import opened Basics
  import opened Chunks
  import opened Entries
  import opened AclText
  import opened AclChunks

  /** A parsed `AclEntries` argument: which ACEs it means, and what to make of them. */
  datatype Edit = Edit(
    default: bool, allow: Option<bool>, owner: OwnerType, permissions: Option<seq<string>>)

  predicate IsMatch(e: Edit, a: Ace) {
    e.default == (Default in a.flags) && e.owner == a.owner && (e.allow.Some? ==> e.allow.value == a.allow)
  }

  function ToAce(e: Edit): Ace {
    Ace(if e.default then {Default} else {},
        e.owner,
        if e.allow.Some? then e.allow.value else true,
        if e.permissions.Some? then Recognised(PERMISSIONS, PermissionNames, e.permissions.value) else {})
  }

  // ---------------------------------------------------------------- meaning

  /** The first match takes the new permission; without one the new ACE comes last. */
  function Modified(aces: seq<Ace>, e: Edit): seq<Ace> {
    if aces == [] then [ToAce(e)]
    else if IsMatch(e, aces[0]) then [aces[0].(permission := ToAce(e).permission)] + aces[1..]
    else [aces[0]] + Modified(aces[1..], e)
  }

  function Without(aces: seq<Ace>, e: Edit): seq<Ace> {
    if aces == [] then []
    else
      var last := |aces| - 1;
      Without(aces[..last], e) + (if IsMatch(e, aces[last]) then [] else [aces[last]])
  }

  /** The `set`, `modify` and `remove` of one command, made in this order. */
  datatype Edits = Edits(reset: Option<Edit>, amend: Option<Edit>, remove: Option<Edit>)

  function AfterSet(aces: seq<Ace>, es: Edits): seq<Ace> {
    if es.reset.Some? then [ToAce(es.reset.value)] else aces
  }

  function AfterModify(aces: seq<Ace>, es: Edits): seq<Ace> {
    if es.amend.Some? then Modified(AfterSet(aces, es), es.amend.value) else AfterSet(aces, es)
  }

  function EditedList(aces: seq<Ace>, es: Edits): seq<Ace> {
    if es.remove.Some? then Without(AfterModify(aces, es), es.remove.value) else AfterModify(aces, es)
  }

  function Edited(m: Acls, platform: Platform, es: Edits): Acls {
    m[platform := EditedList(ListOf(m, platform), es)]
  }

  // ---------------------------------------------------------------- editing in place

  /** The vector that `transform_acl` edits through a mutable borrow. */
  class AclList {
    var aces: seq<Ace>

    constructor (aces: seq<Ace>)
      ensures this.aces == aces
    {
      this.aces := aces;
    }

    method Replace(e: Edit)
      modifies this
      ensures aces == [ToAce(e)]
    {
      var ace := MakeAce(e);
      aces := [];
      aces := aces + [ace];
    }

    method Modify(e: Edit)
      modifies this
      ensures aces == Modified(old(aces), e)
    {
      hide ToAce, IsMatch;
      var ace := MakeAce(e);
      var i := 0;
      while i < |aces| && !IsMatch(e, aces[i])
        invariant i <= |aces| && aces == old(aces)
        invariant Modified(aces, e) == aces[..i] + Modified(aces[i..], e)
      {
        var rest := aces[i..];
        assert rest[1..] == aces[i + 1..];
        assert aces[..i + 1] == aces[..i] + [aces[i]];
        Assoc(aces[..i], [aces[i]], Modified(rest[1..], e));
        i := i + 1;
      }
      if i < |aces| {
        var rest := aces[i..];
        assert rest[1..] == aces[i + 1..];
        aces := aces[i := aces[i].(permission := ace.permission)];
        assert aces == aces[..i] + ([aces[i]] + aces[i + 1..]);
      } else {
        aces := aces + [ace];
      }
    }

    method Remove(e: Edit)
      modifies this
      ensures aces == Without(old(aces), e)
    {
      hide IsMatch;
      var kept: seq<Ace> := [];
      for i := 0 to |aces|
        invariant aces == old(aces)
        invariant kept == Without(aces[..i], e)
      {
        assert aces[..i + 1][..i] == aces[..i];
        if !IsMatch(e, aces[i]) {
          kept := kept + [aces[i]];
        }
      }
      assert aces[..|aces|] == aces;
      aces := kept;
    }
  }

  method MakeAce(e: Edit) returns (a: Ace)
    ensures a == ToAce(e)
  {
    var permission := {};
    if e.permissions.Some? {
      permission := Recognise(PERMISSIONS, PermissionNames, e.permissions.value);
    }
    a := Ace(if e.default then {Default} else {}, e.owner,
             if e.allow.Some? then e.allow.value else true, permission);
  }

  /** `transform_acl`. */
  method TransformAcl(acls: Acls, platform: Platform, es: Edits) returns (r: Acls)
    ensures r == Edited(acls, platform, es)
  {
    hide Modified, Without, IsMatch, ToAce;
    var acl := new AclList(ListOf(acls, platform));
    if es.reset.Some? {
      acl.Replace(es.reset.value);
    }
    if es.amend.Some? {
      acl.Modify(es.amend.value);
    }
    if es.remove.Some? {
      acl.Remove(es.remove.value);
    }
    r := acls[platform := acl.aces];
  }

  // ---------------------------------------------------------------- what an edit does

  lemma ToAceMatches(e: Edit)
    ensures IsMatch(e, ToAce(e))
  {
  }

  /** A modification changes one permission, that of the first match, or adds one ACE at the end. */
  lemma {:induction false} ModifiedMeans(aces: seq<Ace>, e: Edit) returns (i: nat)
    ensures i <= |aces| && forall j :: 0 <= j < i ==> !IsMatch(e, aces[j])
    ensures i < |aces| ==>
      IsMatch(e, aces[i]) &&
      Modified(aces, e) == aces[i := aces[i].(permission := ToAce(e).permission)]
    ensures i == |aces| ==> Modified(aces, e) == aces + [ToAce(e)]
  {
    hide ToAce, IsMatch;
    i := 0;
    if aces != [] && !IsMatch(e, aces[0]) {
      var k := ModifiedMeans(aces[1..], e);
      assert aces == [aces[0]] + aces[1..];
      i := k + 1;
    }
  }

  /** However the list stood, a modification leaves an ACE that it matches. */
  lemma ModifyLeavesMatch(aces: seq<Ace>, e: Edit)
    ensures exists a <- Modified(aces, e) :: IsMatch(e, a)
  {
    hide ToAce;
    var i := ModifiedMeans(aces, e);
    ToAceMatches(e);
    if i == |aces| {
      assert ToAce(e) in Modified(aces, e);
    } else {
      assert Modified(aces, e)[i] in Modified(aces, e);
    }
  }

  lemma {:induction false} ModifyTwice(aces: seq<Ace>, e: Edit)
    ensures Modified(Modified(aces, e), e) == Modified(aces, e)
  {
    hide ToAce;
    if aces == [] {
      ToAceMatches(e);
    } else {
      ModifyTwice(aces[1..], e);
    }
  }

  /**
   * A removal leaves no match, keeps every other ACE, and keeps them in order: the result is
   * what stands at an increasing list of positions, which are all those without a match.
   */
  lemma {:induction false} WithoutMeans(aces: seq<Ace>, e: Edit) returns (at: seq<nat>)
    ensures |at| == |Without(aces, e)|
    ensures forall k :: 0 <= k < |at| ==> at[k] < |aces| && Without(aces, e)[k] == aces[at[k]]
    ensures forall j, k :: 0 <= j < k < |at| ==> at[j] < at[k]
    ensures forall i: nat :: i in at <==> i < |aces| && !IsMatch(e, aces[i])
  {
    hide IsMatch;
    if aces == [] {
      at := [];
    } else {
      var last := |aces| - 1;
      var before := WithoutMeans(aces[..last], e);
      at := before + (if IsMatch(e, aces[last]) then [] else [last]);
      forall i: nat ensures i in at <==> i < |aces| && !IsMatch(e, aces[i]) {
        assert i in before <==> i < last && !IsMatch(e, aces[..last][i]);
      }
    }
  }

  lemma {:induction false} WithoutNoMatch(aces: seq<Ace>, e: Edit)
    ensures forall a <- Without(aces, e) :: a in aces && !IsMatch(e, a)
    ensures (forall a <- aces :: !IsMatch(e, a)) ==> Without(aces, e) == aces
  {
    hide IsMatch;
    if aces != [] {
      var last := |aces| - 1;
      assert aces == aces[..last] + [aces[last]];
      WithoutNoMatch(aces[..last], e);
    }
  }

  /** After a whole command: a match of the removal is gone; of the amendment, if none, there. */
  lemma EditLeaves(aces: seq<Ace>, es: Edits)
    ensures es.remove.Some? ==> forall a <- EditedList(aces, es) :: !IsMatch(es.remove.value, a)
    ensures es.remove.None? && es.amend.Some? ==>
      exists a <- EditedList(aces, es) :: IsMatch(es.amend.value, a)
  {
    hide IsMatch, Modified, Without;
    if es.remove.Some? {
      WithoutNoMatch(AfterModify(aces, es), es.remove.value);
    } else if es.amend.Some? {
      ModifyLeavesMatch(AfterSet(aces, es), es.amend.value);
    }
  }

  /** Only the chosen platform's list changes; the platform is there afterwards in any case. */
  lemma OnlyPlatformTouched(m: Acls, platform: Platform, es: Edits, other: Platform)
    requires other != platform
    ensures other in Edited(m, platform, es) <==> other in m
    ensures ListOf(Edited(m, platform, es), other) == ListOf(m, other)
    ensures platform in Edited(m, platform, es)
    ensures ListOf(Edited(m, platform, es), platform) == EditedList(ListOf(m, platform), es)
  {
    hide EditedList;
  }

  // ---------------------------------------------------------------- repeating an edit

  /**
   * A removal that takes some but not all of what an amendment may match: the two name the same
   * owner and default flag, and only the removal tells allowing from denying.
   */
  predicate Overlapping(es: Edits) {
    es.reset.None? && es.amend.Some? && es.remove.Some? &&
    es.amend.value.default == es.remove.value.default &&
    es.amend.value.owner == es.remove.value.owner &&
    es.amend.value.allow.None? && es.remove.value.allow.Some?
  }

  predicate SettlesOn(aces: seq<Ace>, es: Edits) {
    EditedList(EditedList(aces, es), es) == EditedList(aces, es)
  }

  /** There is a match, and the first already has the permission. */
  predicate Settled(aces: seq<Ace>, e: Edit) {
    aces != [] &&
    if IsMatch(e, aces[0]) then aces[0].permission == ToAce(e).permission else Settled(aces[1..], e)
  }

  lemma {:induction false} ModifiedIsSettled(aces: seq<Ace>, e: Edit)
    ensures Settled(Modified(aces, e), e)
    ensures Settled(aces, e) ==> Modified(aces, e) == aces
  {
    hide ToAce;
    if aces == [] {
      ToAceMatches(e);
    } else {
      ModifiedIsSettled(aces[1..], e);
      assert aces == [aces[0]] + aces[1..];
    }
  }

  lemma {:induction false} WithoutHead(aces: seq<Ace>, e: Edit)
    requires aces != []
    ensures Without(aces, e) == (if IsMatch(e, aces[0]) then [] else [aces[0]]) + Without(aces[1..], e)
  {
    hide IsMatch;
    var last := |aces| - 1;
    if last > 0 {
      WithoutHead(aces[..last], e);
      assert aces[..last][1..] == aces[1..][..last - 1];
      Assoc(if IsMatch(e, aces[0]) then [] else [aces[0]], Without(aces[1..][..last - 1], e),
            if IsMatch(e, aces[last]) then [] else [aces[last]]);
    }
  }

  predicate Covers(r: Edit, e: Edit) {
    r.default == e.default && r.owner == e.owner && (r.allow.Some? ==> r.allow == e.allow)
  }

  predicate Apart(r: Edit, e: Edit) {
    r.default != e.default || r.owner != e.owner || (r.allow.Some? && e.allow.Some? && r.allow != e.allow)
  }

  lemma {:induction false} RemovalKeepsSettled(aces: seq<Ace>, e: Edit, r: Edit)
    requires Apart(r, e) && Settled(aces, e)
    ensures Settled(Without(aces, r), e)
  {
    hide ToAce, Without;
    WithoutHead(aces, r);
    var kept := Without(aces, r);
    if !IsMatch(e, aces[0]) {
      RemovalKeepsSettled(aces[1..], e, r);
      if !IsMatch(r, aces[0]) {
        assert kept[1..] == Without(aces[1..], r);
      } else {
        assert kept == Without(aces[1..], r);
      }
    }
  }

  lemma {:induction false} RemovalHidesModification(aces: seq<Ace>, e: Edit, r: Edit)
    requires Covers(r, e)
    ensures Without(Modified(aces, e), r) == Without(aces, r)
  {
    hide ToAce, Without;
    ToAceMatches(e);
    WithoutHead(Modified(aces, e), r);
    if aces == [] {
      assert [ToAce(e)][1..] == [];
    } else {
      WithoutHead(aces, r);
      RemovalHidesModification(aces[1..], e, r);
    }
  }

  lemma RemoveTwice(aces: seq<Ace>, r: Edit)
    ensures Without(Without(aces, r), r) == Without(aces, r)
  {
    WithoutNoMatch(aces, r);
    WithoutNoMatch(Without(aces, r), r);
  }

  lemma ModifyThenRemoveTwice(aces: seq<Ace>, e: Edit, r: Edit)
    requires Covers(r, e) || Apart(r, e)
    ensures Without(Modified(Without(Modified(aces, e), r), e), r) == Without(Modified(aces, e), r)
  {
    hide Modified, Without, Covers, Apart, Settled;
    var once := Without(Modified(aces, e), r);
    RemoveTwice(Modified(aces, e), r);
    if Covers(r, e) {
      RemovalHidesModification(once, e, r);
    } else {
      ModifiedIsSettled(aces, e);
      RemovalKeepsSettled(Modified(aces, e), e, r);
      ModifiedIsSettled(once, e);
    }
  }

  lemma NotOverlappingSettles(aces: seq<Ace>, es: Edits)
    requires !Overlapping(es)
    ensures SettlesOn(aces, es)
  {
    hide Modified, Without;
    if es.reset.None? {
      if es.amend.Some? && es.remove.Some? {
        ModifyThenRemoveTwice(aces, es.amend.value, es.remove.value);
      } else if es.amend.Some? {
        ModifyTwice(aces, es.amend.value);
      } else if es.remove.Some? {
        RemoveTwice(aces, es.remove.value);
      }
    }
  }

  /** A list that an overlapping command changes again the second time. */
  function Unsettled(es: Edits): seq<Ace>
    requires Overlapping(es)
  {
    var e, x := es.amend.value, es.remove.value.allow.value;
    var ace := ToAce(e);
    if x then
      [ace, ace.(allow := false, permission := if ace.permission == {} then {Read} else {})]
    else [ace.(allow := false)]
  }

  lemma OneAce(a: Ace, e: Edit, r: Edit)
    requires IsMatch(e, a)
    ensures Modified([a], e) == [a.(permission := ToAce(e).permission)]
    ensures Without([a], r) == if IsMatch(r, a) then [] else [a]
  {
    hide ToAce;
    assert [a][1..] == [] && [a][..0] == [];
  }

  lemma TwoAces(a: Ace, b: Ace, e: Edit, r: Edit)
    requires IsMatch(e, a)
    ensures Modified([a, b], e) == [a.(permission := ToAce(e).permission), b]
    ensures Without([a, b], r) == (if IsMatch(r, a) then [] else [a]) + Without([b], r)
  {
    hide ToAce, Without;
    WithoutHead([a, b], r);
    assert [a, b][1..] == [b];
  }

  lemma OverlappingUnsettled(es: Edits)
    requires Overlapping(es)
    ensures !SettlesOn(Unsettled(es), es)
  {
    hide Recognised, Modified, Without;
    var e, r := es.amend.value, es.remove.value;
    var ace := ToAce(e);
    var deny := Unsettled(es)[|Unsettled(es)| - 1];
    var later := deny.(permission := ace.permission);
    OneAce(ace, e, r);
    OneAce(deny, e, r);
    if r.allow.value {
      OneAce(later, e, r);
      TwoAces(ace, deny, e, r);
      assert EditedList([ace, deny], es) == [deny];
      assert EditedList([deny], es) == [later];
    } else {
      OneAce(later, e, r);
      assert Modified([], e) == [ace] by { NoAces(e); }
      assert EditedList([deny], es) == [];
      assert EditedList([], es) == [ace];
    }
  }

  lemma NoAces(e: Edit)
    ensures Modified([], e) == [ToAce(e)]
  {
  }

  /** Repeating a command changes nothing on any list exactly when its edits do not overlap. */
  lemma RepeatingSettlesIff(es: Edits)
    ensures (forall aces :: SettlesOn(aces, es)) <==> !Overlapping(es)
  {
    if Overlapping(es) {
      OverlappingUnsettled(es);
    } else {
      forall aces ensures SettlesOn(aces, es) {
        NotOverlappingSettles(aces, es);
      }
    }
  }

  // ---------------------------------------------------------------- whole entries

  /** The extra chunks that are not about ACLs, in order. */
  function Others(cs: seq<RawChunk>): seq<RawChunk> {
    if cs == [] then []
    else (if IsAclChunk(cs[0]) then [] else [cs[0]]) + Others(cs[1..])
  }

  lemma {:induction false} OthersMeans(cs: seq<RawChunk>)
    ensures NoAclChunks(Others(cs))
    ensures NoAclChunks(cs) ==> Others(cs) == cs
  {
    if cs != [] {
      OthersMeans(cs[1..]);
      assert cs == [cs[0]] + cs[1..];
    }
  }

  lemma {:induction false} OthersAppend(a: seq<RawChunk>, b: seq<RawChunk>)
    ensures Others(a + b) == Others(a) + Others(b)
  {
    if a == [] {
      assert a + b == b;
    } else {
      assert (a + b)[1..] == a[1..] + b;
      OthersAppend(a[1..], b);
      Assoc(if IsAclChunk(a[0]) then [] else [a[0]], Others(a[1..]), Others(b));
    }
  }

  /** The extra chunks with the ACL chunks replaced by those of a map. */
  function WithAcls(extra: seq<RawChunk>, m: Acls, order: seq<Platform>): seq<RawChunk>
    requires Orders(order, m)
  {
    ChunksOf(order, m) + Others(extra)
  }

  /** The ACL part comes first, pushed chunk by chunk. */
  method ReplaceAcls(extra: seq<RawChunk>, m: Acls, order: seq<Platform>) returns (r: seq<RawChunk>)
    requires Orders(order, m)
    ensures r == WithAcls(extra, m, order)
  {
    hide PlatformChunk, AceChunks, Others;
    r := [];
    assert order[0..] == order;
    for i := 0 to |order|
      invariant ChunksOf(order, m) == r + ChunksOf(order[i..], m)
    {
      var rest := order[i..];
      assert rest[1..] == order[i + 1..];
      Regroup(r, [PlatformChunk(order[i])], AceChunks(m[order[i]]), ChunksOf(rest[1..], m));
      r := PushAces(r + [PlatformChunk(order[i])], m[order[i]]);
    }
    var kept := KeepOthers(extra);
    r := r + kept;
  }

  method PushAces(before: seq<RawChunk>, aces: seq<Ace>) returns (r: seq<RawChunk>)
    ensures r == before + AceChunks(aces)
  {
    hide AceChunk;
    r := before;
    assert aces[0..] == aces;
    for j := 0 to |aces|
      invariant before + AceChunks(aces) == r + AceChunks(aces[j..])
    {
      var left := aces[j..];
      assert left[1..] == aces[j + 1..];
      Assoc(r, [AceChunk(aces[j])], AceChunks(left[1..]));
      r := r + [AceChunk(aces[j])];
    }
  }

  lemma Regroup<T>(a: seq<T>, b: seq<T>, c: seq<T>, d: seq<T>)
    ensures a + (b + c + d) == a + b + c + d
  {
  }

  lemma OthersFrom(cs: seq<RawChunk>, i: nat)
    requires i < |cs|
    ensures Others(cs[i..]) == (if IsAclChunk(cs[i]) then [] else [cs[i]]) + Others(cs[i + 1..])
  {
    hide IsAclChunk;
    assert cs[i..][1..] == cs[i + 1..];
  }

  method KeepOthers(cs: seq<RawChunk>) returns (r: seq<RawChunk>)
    ensures r == Others(cs)
  {
    hide *;
    r := [];
    assert cs[0..] == cs;
    for i := 0 to |cs|
      invariant Others(cs) == r + Others(cs[i..])
    {
      OthersFrom(cs, i);
      if !IsAclChunk(cs[i]) {
        Assoc(r, [cs[i]], Others(cs[i + 1..]));
        r := r + [cs[i]];
      }
    }
    NoOthers();
    assert cs[|cs|..] == [] && r + [] == r;
  }

  lemma {:induction false} AceChunksAreAcl(aces: seq<Ace>)
    ensures Others(AceChunks(aces)) == []
  {
    if aces != [] {
      AceChunksAreAcl(aces[1..]);
    }
  }

  lemma OthersOne(c: RawChunk)
    ensures Others([c]) == if IsAclChunk(c) then [] else [c]
  {
    assert [c][1..] == [];
  }

  lemma NoOthers()
    ensures Others([]) == []
  {
  }

  lemma {:induction false} ChunksOfAreAcl(order: seq<Platform>, m: Acls)
    requires forall p <- order :: p in m
    ensures Others(ChunksOf(order, m)) == []
  {
    hide Others, AceChunks;
    assert Others([]) == [] by { NoOthers(); }
    if order != [] {
      var p := order[0];
      ChunksOfAreAcl(order[1..], m);
      AceChunksAreAcl(m[p]);
      OthersAppend([PlatformChunk(p)] + AceChunks(m[p]), ChunksOf(order[1..], m));
      OthersAppend([PlatformChunk(p)], AceChunks(m[p]));
      OthersOne(PlatformChunk(p));
    }
  }

  /** Replacing the ACLs keeps the other chunks, and the new ACLs are read back. */
  lemma WithAclsMeans(extra: seq<RawChunk>, m: Acls, order: seq<Platform>)
    requires Orders(order, m)
    ensures Others(WithAcls(extra, m, order)) == Others(extra)
    ensures AclOf(WithAcls(extra, m, order)) == Ok(NonEmpty(m)) <==> IsStorable(m)
  {
    hide AclOf, ChunksOf, IsStorable, NonEmpty, Orders;
    OthersMeans(extra);
    OthersMeans(Others(extra));
    assert (forall p <- order :: p in m) by { OrderedKeys(order, m); }
    ChunksOfAreAcl(order, m);
    OthersAppend(ChunksOf(order, m), Others(extra));
    EncodeDecodeIff(order, m, Others(extra));
  }

  lemma OrderedKeys(order: seq<Platform>, m: Acls)
    requires Orders(order, m)
    ensures forall p <- order :: p in m
  {
  }

  /** The map an edit starts from: an ACL that does not decode counts as none. */
  function AclsOrNone(extra: seq<RawChunk>): Acls {
    if AclOf(extra).Ok? then AclOf(extra).value else map[]
  }

  /** `transform_entry`; `order` is the order in which the edited map's iterator meets its keys. */
  method TransformEntry(e: NormalEntry, platform: Platform, es: Edits, order: seq<Platform>)
    returns (r: NormalEntry)
    requires Orders(order, Edited(AclsOrNone(e.extra), platform, es))
    ensures r == e.(extra := WithAcls(e.extra, Edited(AclsOrNone(e.extra), platform, es), order))
  {
    hide Edited, Orders, WithAcls, AclOf;
    var decoded := Acl(e.extra);
    var acls := TransformAcl(if decoded.Ok? then decoded.value else map[], platform, es);
    var extra := ReplaceAcls(e.extra, acls, order);
    return e.(extra := extra);
  }

  /** What the command line can produce: an identifier never holds a colon and is never empty. */
  predicate IsPlainEdits(es: Edits) {
    (es.reset.Some? ==> IsPlainOwner(es.reset.value.owner)) &&
    (es.amend.Some? ==> IsPlainOwner(es.amend.value.owner))
  }

  lemma {:induction false} EditedListIsPlain(aces: seq<Ace>, es: Edits)
    requires IsPlainEdits(es) && forall a <- aces :: IsPlainAce(a)
    ensures forall a <- EditedList(aces, es) :: IsPlainAce(a)
  {
    hide IsMatch, Modified, Without;
    if es.amend.Some? {
      var before := AfterSet(aces, es);
      var i := ModifiedMeans(before, es.amend.value);
      if i < |before| {
        assert before[i] in before;
      }
    }
    if es.remove.Some? {
      WithoutNoMatch(AfterModify(aces, es), es.remove.value);
    }
  }

  lemma NoAclsArePlain()
    ensures IsPlainAcls(map[])
  {
  }

  lemma EditedIsStorable(m: Acls, platform: Platform, es: Edits)
    requires IsPlainAcls(m) && IsPlainEdits(es) && IsCanonical(platform)
    ensures IsStorable(Edited(m, platform, es))
  {
    hide IsPlainAce, IsCanonical, EditedList, IsPlainEdits;
    EditedListIsPlain(ListOf(m, platform), es);
  }

  /**
   * The whole command on an entry: afterwards the chosen platform's list decodes to the edited
   * one, every other platform's to what it was, and the other extra chunks stand as before.
   */
  lemma TransformedEntryDecodes(e: NormalEntry, platform: Platform, es: Edits, order: seq<Platform>, p: Platform)
    requires IsPlainEdits(es) && IsCanonical(platform)
    requires Orders(order, Edited(AclsOrNone(e.extra), platform, es))
    ensures
      var was := AclsOrNone(e.extra);
      var extra := WithAcls(e.extra, Edited(was, platform, es), order);
      Others(extra) == Others(e.extra) &&
      AclOf(extra).Ok? && IsPlainAcls(AclOf(extra).value) &&
      ListOf(AclOf(extra).value, p) ==
        (if p == platform then EditedList(ListOf(was, p), es) else ListOf(was, p))
  {
    hide IsPlainAce, IsCanonical, AclOf, Orders, WithAcls, EditedList, IsPlainEdits, IsStorable, IsPlainAcls, NonEmpty,
      ListOf, Edited, Others;
    var was := AclsOrNone(e.extra);
    if AclOf(e.extra).Ok? {
      DecodedIsPlain(e.extra);
    } else {
      assert IsPlainAcls(was) by { NoAclsArePlain(); }
    }
    var m := Edited(was, platform, es);
    EditedIsStorable(was, platform, es);
    WithAclsMeans(e.extra, m, order);
    DecodedIsPlain(WithAcls(e.extra, m, order));
    NonEmptyList(m, p);
    EditedLists(was, platform, es, p);
  }

  lemma NonEmptyList(m: Acls, p: Platform)
    ensures ListOf(NonEmpty(m), p) == ListOf(m, p)
  {
  }

  lemma EditedLists(m: Acls, platform: Platform, es: Edits, p: Platform)
    ensures ListOf(Edited(m, platform, es), p) ==
      if p == platform then EditedList(ListOf(m, p), es) else ListOf(m, p)
  {
    hide EditedList;
  }

  // ---------------------------------------------------------------- what an argument asks for

  /** A command that only sets, only modifies, or only removes. */
  function Setting(e: Edit): Edits {
    Edits(Some(e), None, None)
  }

  function Modifying(e: Edit): Edits {
    Edits(None, Some(e), None)
  }

  function Removing(e: Edit): Edits {
    Edits(None, None, Some(e))
  }

  /** A command is its three parts, one after the other; a part that is not given changes nothing. */
  lemma CommandIsItsParts(aces: seq<Ace>, es: Edits)
    ensures
      var reset := if es.reset.Some? then EditedList(aces, Setting(es.reset.value)) else aces;
      var amended := if es.amend.Some? then EditedList(reset, Modifying(es.amend.value)) else reset;
      EditedList(aces, es) ==
        if es.remove.Some? then EditedList(amended, Removing(es.remove.value)) else amended
  {
    hide Modified, Without, ToAce;
  }

  /**
   * Setting leaves one ACE: for the owner and default flag asked for, denying only if the
   * argument says so, and granting just the permissions of which it lists a name.
   */
  lemma SettingLeaves(aces: seq<Ace>, e: Edit)
    ensures var after := EditedList(aces, Setting(e));
      |after| == 1 && after[0].owner == e.owner && after[0].flags == (if e.default then {Default} else {}) &&
      (after[0].allow <==> e.allow != Some(false)) &&
      forall p :: p in after[0].permission <==>
        e.permissions.Some? && exists n <- PermissionNames(p) :: n in e.permissions.value
  {
    hide PermissionNames;
    forall p ensures p in PERMISSIONS {
      AllListed(Default, p);
    }
  }

  /** The argument that asks for just this ACE: its owner and verdict, and its permissions by name. */
  function EditFor(a: Ace): Edit {
    Edit(Default in a.flags, Some(a.allow), a.owner, Some(Selected(PERMISSIONS, PermissionNames, a.permission)))
  }

  lemma NamesMeanPermissions(permission: set<Permission>)
    ensures Recognised(PERMISSIONS, PermissionNames, Selected(PERMISSIONS, PermissionNames, permission)) == permission
  {
    hide PermissionNames, PERMISSIONS, Selected;
    TablesNamed();
    forall p <- permission ensures p in PERMISSION_TABLE.order {
      AllListed(Default, p);
    }
    RecognisedSelected(PERMISSION_TABLE, permission);
  }

  /** An ACE without other flags than the default one is set, or added, or given its permissions, exactly. */
  lemma AskedForExactly(aces: seq<Ace>, a: Ace) returns (i: nat)
    requires a.flags <= {Default}
    ensures EditedList(aces, Setting(EditFor(a))) == [a]
    ensures i <= |aces| && forall j :: 0 <= j < i ==> !SameTarget(aces[j], a)
    ensures i < |aces| ==>
      SameTarget(aces[i], a) &&
      EditedList(aces, Modifying(EditFor(a))) == aces[i := aces[i].(permission := a.permission)]
    ensures i == |aces| ==> EditedList(aces, Modifying(EditFor(a))) == aces + [a]
  {
    hide Recognised, Selected, Modified;
    NamesMeanPermissions(a.permission);
    i := ModifiedMeans(aces, EditFor(a));
    assert (if Default in a.flags then {Default} else {}) == a.flags;
  }

  /** For the same owner, with the same default flag and verdict. */
  predicate SameTarget(a: Ace, b: Ace) {
    (Default in a.flags <==> Default in b.flags) && a.owner == b.owner && a.allow == b.allow
  }

  /** Removing takes an ACE away exactly when owner and default flag agree, and the verdict if one is given. */
  lemma RemovingTakes(a: Ace, e: Edit)
    ensures EditedList([a], Removing(e)) ==
      if e.owner == a.owner && (e.default <==> Default in a.flags) && (e.allow.None? || e.allow == Some(a.allow))
      then [] else [a]
  {
    assert [a][..0] == [] && Without([], e) == [];
  }
}
