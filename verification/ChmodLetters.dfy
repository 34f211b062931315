/** What the letters of a symbolic mode mean, bit by bit, and exactly which texts are modes. */
module ChmodLetters {
  import opened Basics
  import opened Chmod
  import Words

  // ---------------------------------------------------------------- letters

  predicate IsClassLetter(k: char) {
    k == 'u' || k == 'g' || k == 'o'
  }

  predicate IsBitLetter(l: char) {
    l == 'r' || l == 'w' || l == 'x'
  }

  predicate IsWhoText(s: string) {
    forall i :: 0 <= i < |s| ==> IsClassLetter(s[i]) || s[i] == 'a'
  }

  predicate IsPermText(s: string) {
    forall i :: 0 <= i < |s| ==> IsClassLetter(s[i]) || IsBitLetter(s[i])
  }

  /** The bit of the mode that gives a class, by its letter, one permission. */
  function Mask(k: char, l: char): bv16 {
    if k == 'u' then (if l == 'r' then 0x100 else if l == 'w' then 0x80 else 0x40)
    else if k == 'g' then (if l == 'r' then 0x20 else if l == 'w' then 0x10 else 0x8)
    else (if l == 'r' then 0x4 else if l == 'w' then 0x2 else 0x1)
  }

  predicate Grants(mode: bv16, k: char, l: char) {
    mode & Mask(k, l) != 0
  }

  /** The class is named, by its letter, by `a`, or by naming none. */
  predicate Names(who: string, k: char) {
    who == "" || k in who || 'a' in who
  }

  /** The permission is asked for: by its letter, or by copying a class that has it. */
  predicate AsksFor(perms: string, mode: bv16, l: char) {
    l in perms || ('u' in perms && Grants(mode, 'u', l)) || ('g' in perms && Grants(mode, 'g', l)) ||
    ('o' in perms && Grants(mode, 'o', l))
  }

  // ---------------------------------------------------------------- what the parser makes of them

  function ClassOf(k: char): Class {
    if k == 'u' then User else if k == 'g' then Group else Other
  }

  lemma {:induction false} WhoTaken(who: string, rest: string)
    requires IsWhoText(who) && (rest == "" || WhoOf(rest[0]) == {})
    ensures TakeWho(who + rest).rest == rest
    ensures forall k | IsClassLetter(k) :: ClassOf(k) in TakeWho(who + rest).value <==> k in who || 'a' in who
    ensures TakeWho(who + rest).value == {} <==> who == ""
  {
    if who == "" {
      assert who + rest == rest;
    } else {
      assert (who + rest)[1..] == who[1..] + rest && who == [who[0]] + who[1..];
      WhoTaken(who[1..], rest);
      LetterClasses(who[0]);
    }
  }

  lemma LetterClasses(c: char)
    requires IsClassLetter(c) || c == 'a'
    ensures WhoOf(c) != {}
    ensures forall k | IsClassLetter(k) :: ClassOf(k) in WhoOf(c) <==> k == c || c == 'a'
  {
    assert User in WhoOf(c) || Group in WhoOf(c) || Other in WhoOf(c);
  }

  /** The literal bits and copied classes that permission letters stand for. */
  ghost predicate Spells(perms: string, bits: PermBits) {
    (forall l | IsBitLetter(l) :: HasBit(bits.literal, l) <==> l in perms) &&
    (forall k | IsClassLetter(k) :: ClassOf(k) in bits.copyFrom <==> k in perms)
  }

  predicate HasBit(b: bv16, l: char) {
    if l == 'r' then b & 4 != 0 else if l == 'w' then b & 2 != 0 else b & 1 != 0
  }

  lemma JoinedBit(a: bv16, b: bv16, l: char)
    requires IsBitLetter(l)
    ensures HasBit(Joined(a, b), l) <==> HasBit(a, l) || HasBit(b, l)
  {
    hide Joined;
    if l == 'r' {
      JoinedRead(a, b);
    } else if l == 'w' {
      JoinedWrite(a, b);
    } else {
      JoinedExecute(a, b);
    }
  }

  lemma JoinedRead(a: bv16, b: bv16)
    ensures Joined(a, b) & 4 != 0 <==> a & 4 != 0 || b & 4 != 0
  {
  }

  lemma JoinedWrite(a: bv16, b: bv16)
    ensures Joined(a, b) & 2 != 0 <==> a & 2 != 0 || b & 2 != 0
  {
  }

  lemma JoinedExecute(a: bv16, b: bv16)
    ensures Joined(a, b) & 1 != 0 <==> a & 1 != 0 || b & 1 != 0
  {
  }

  lemma ClearedBit(a: bv16, b: bv16, l: char)
    requires IsBitLetter(l)
    ensures HasBit(Cleared(a, b), l) <==> HasBit(a, l) && !HasBit(b, l)
  {
    hide Cleared;
    if l == 'r' {
      ClearedRead(a, b);
    } else if l == 'w' {
      ClearedWrite(a, b);
    } else {
      ClearedExecute(a, b);
    }
  }

  lemma ClearedRead(a: bv16, b: bv16)
    ensures Cleared(a, b) & 4 != 0 <==> a & 4 != 0 && b & 4 == 0
  {
  }

  lemma ClearedWrite(a: bv16, b: bv16)
    ensures Cleared(a, b) & 2 != 0 <==> a & 2 != 0 && b & 2 == 0
  {
  }

  lemma ClearedExecute(a: bv16, b: bv16)
    ensures Cleared(a, b) & 1 != 0 <==> a & 1 != 0 && b & 1 == 0
  {
  }

  lemma OneLetter(c: char)
    requires IsClassLetter(c) || IsBitLetter(c)
    ensures Spells([c], PermOf(c)) && PermOf(c) != NO_BITS
  {
  }

  lemma NoLetter()
    ensures Spells("", NO_BITS)
  {
  }

  lemma SpellsBoth(a: string, b: string, x: PermBits, y: PermBits)
    requires Spells(a, x) && Spells(b, y)
    ensures Spells(a + b, Both(x, y))
  {
    hide HasBit;
    forall l | IsBitLetter(l) ensures HasBit(Both(x, y).literal, l) <==> l in a + b {
      assert Both(x, y).literal == Joined(x.literal, y.literal);
      JoinedBit(x.literal, y.literal, l);
    }
  }

  lemma {:induction false} PermsTaken(perms: string, rest: string)
    requires IsPermText(perms) && (rest == "" || PermOf(rest[0]) == NO_BITS)
    ensures TakePerms(perms + rest).rest == rest && Spells(perms, TakePerms(perms + rest).value)
  {
    hide Spells, PermOf, Both;
    if perms == "" {
      assert perms + rest == rest;
      NoLetter();
    } else {
      assert (perms + rest)[1..] == perms[1..] + rest && perms == [perms[0]] + perms[1..];
      PermsTaken(perms[1..], rest);
      OneLetter(perms[0]);
      SpellsBoth([perms[0]], perms[1..], PermOf(perms[0]), TakePerms(perms[1..] + rest).value);
    }
  }

  lemma OpsAreNoLetters(c: char)
    ensures IsOp(c) ==> WhoOf(c) == {} && PermOf(c) == NO_BITS && !IsDigit(c)
  {
  }

  // ---------------------------------------------------------------- one action

  /** An action with these letters, its sign told by its operator. */
  ghost predicate IsActionOf(a: Action, op: char, perms: string) {
    Spells(perms, a.bits) && (a.Plus? <==> op == '+') && (a.Minus? <==> op == '-')
  }

  lemma ActionTaken(op: char, perms: string)
    requires IsOp(op) && IsPermText(perms)
    ensures var t := TakeActions([op] + perms);
      t.rest == "" && |t.value| == 1 && IsActionOf(t.value[0], op, perms)
  {
    hide Spells, PermOf;
    var s := [op] + perms;
    assert s[1..] == perms && perms + "" == perms;
    PermsTaken(perms, "");
    assert TakeActions("") == Taken([], "");
  }

  /** A clause of one action is a mode, of just that clause. */
  lemma ClauseTaken(who: string, op: char, perms: string) returns (c: Clause)
    requires IsWhoText(who) && IsOp(op) && IsPermText(perms)
    ensures ModeOf(who + [op] + perms) == Some(Symbolic([c]))
    ensures |c.actions| == 1 && IsActionOf(c.actions[0], op, perms)
    ensures forall k | IsClassLetter(k) :: ClassOf(k) in c.who <==> Names(who, k)
  {
    hide TakeWho, TakeActions, WhoOf, IsActionOf, IsOp;
    var s := who + [op] + perms;
    assert s == who + ([op] + perms) && s[|who|] == op;
    OpsAreNoLetters(op);
    WhoTaken(who, [op] + perms);
    ActionTaken(op, perms);
    c := TakeClause(s).value.value;
    assert TakeClauses(s) == Some(Taken([c], ""));
    assert !IsDigit(s[|who|]) && s[|who|] in s;
  }

  // ---------------------------------------------------------------- what it does to a mode

  lemma GrantsIsBit(mode: bv16, k: char, l: char)
    requires IsClassLetter(k) && IsBitLetter(l)
    ensures Grants(mode, k, l) <==> HasBit(ClassBits(ClassOf(k), mode), l)
  {
    if k == 'u' {
      UserBit(mode, l);
    } else if k == 'g' {
      GroupBit(mode, l);
    }
  }

  lemma UserBit(mode: bv16, l: char)
    requires IsBitLetter(l)
    ensures Grants(mode, 'u', l) <==> HasBit(ClassBits(User, mode), l)
  {
  }

  lemma GroupBit(mode: bv16, l: char)
    requires IsBitLetter(l)
    ensures Grants(mode, 'g', l) <==> HasBit(ClassBits(Group, mode), l)
  {
  }

  function Copied(copies: bool, b: bv16): bv16 {
    if copies then b else 0
  }

  lemma AskedParts(bits: PermBits, mode: bv16)
    ensures Asked(bits, mode) ==
      Joined(Joined(Joined(bits.literal, Copied(User in bits.copyFrom, ClassBits(User, mode))),
                    Copied(Group in bits.copyFrom, ClassBits(Group, mode))),
             Copied(Other in bits.copyFrom, ClassBits(Other, mode)))
  {
  }

  lemma CopiedBit(copies: bool, b: bv16, l: char)
    ensures HasBit(Copied(copies, b), l) <==> copies && HasBit(b, l)
  {
  }

  lemma AskedBit(perms: string, bits: PermBits, mode: bv16, l: char)
    requires Spells(perms, bits) && IsBitLetter(l)
    ensures HasBit(Asked(bits, mode), l) <==> AsksFor(perms, mode, l)
  {
    hide HasBit, Asked, Joined, Copied, Grants, ClassBits;
    var u := Copied(User in bits.copyFrom, ClassBits(User, mode));
    var g := Copied(Group in bits.copyFrom, ClassBits(Group, mode));
    var o := Copied(Other in bits.copyFrom, ClassBits(Other, mode));
    AskedParts(bits, mode);
    JoinedBit(Joined(Joined(bits.literal, u), g), o, l);
    JoinedBit(Joined(bits.literal, u), g, l);
    JoinedBit(bits.literal, u, l);
    CopiedBit(User in bits.copyFrom, ClassBits(User, mode), l);
    CopiedBit(Group in bits.copyFrom, ClassBits(Group, mode), l);
    CopiedBit(Other in bits.copyFrom, ClassBits(Other, mode), l);
    GrantsIsBit(mode, 'u', l);
    GrantsIsBit(mode, 'g', l);
    GrantsIsBit(mode, 'o', l);
    assert ClassOf('u') == User && ClassOf('g') == Group && ClassOf('o') == Other;
  }

  /**
   * A clause of one action, letter by letter: `+` gives each named class what is asked for, `-`
   * takes it, and `=` gives that and nothing else; classes that are not named stay as they were.
   */
  lemma LettersMean(who: string, op: char, perms: string, mode: bv16, k: char, l: char)
    requires IsWhoText(who) && IsOp(op) && IsPermText(perms) && IsClassLetter(k) && IsBitLetter(l)
    ensures ModeOf(who + [op] + perms).Some?
    ensures
      var after := Applied(ModeOf(who + [op] + perms).value, mode);
      var had, asked := Grants(mode, k, l), AsksFor(perms, mode, l);
      HighBits(after) == HighBits(mode) &&
      (Grants(after, k, l) <==>
         if !Names(who, k) then had
         else if op == '+' then had || asked
         else if op == '-' then had && !asked
         else asked)
  {
    hide ModeOf, AfterAction, Asked, Grants, HasBit, ClassBits, HighBits, Joined, Cleared, AsksFor, Spells, Names;
    var c := ClauseTaken(who, op, perms);
    var a := c.actions[0];
    var after := AfterAction(c.who, a, mode);
    OneClauseApplied(c, mode);
    ActionMeans(c.who, a, mode, ClassOf(k));
    AskedBit(perms, a.bits, mode, l);
    GrantsIsBit(mode, k, l);
    GrantsIsBit(after, k, l);
    JoinedBit(ClassBits(ClassOf(k), mode), Asked(a.bits, mode), l);
    ClearedBit(ClassBits(ClassOf(k), mode), Asked(a.bits, mode), l);
  }

  lemma OneClauseApplied(c: Clause, mode: bv16)
    requires |c.actions| == 1
    ensures Applied(Symbolic([c]), mode) == AfterAction(c.who, c.actions[0], mode)
  {
    hide AfterAction;
    assert [c][1..] == [] && c.actions[1..] == [];
    assert AfterActions(c.who, [], AfterAction(c.who, c.actions[0], mode)) == AfterAction(c.who, c.actions[0], mode);
    assert AfterClauses([c], mode) == AfterClauses([], AfterActions(c.who, c.actions, mode));
  }

  /** Three octal digits are the mode that they write. */
  lemma DigitsMean(s: string, mode: bv16)
    requires |s| == 3 && forall i :: 0 <= i < 3 ==> IsOctalDigit(s[i])
    ensures ModeOf(s).Some?
    ensures Applied(ModeOf(s).value, mode) == 64 * DigitValue(s[0]) + 8 * DigitValue(s[1]) + DigitValue(s[2])
    ensures DigitValue('0') == 0 && DigitValue('7') == 7
  {
    hide DigitValue, FromDigits, TakeClauses;
    assert s == [s[0], s[1], s[2]];
    PlacesOfDigits(DigitValue(s[0]), DigitValue(s[1]), DigitValue(s[2]));
    FirstAndLastDigit();
  }

  lemma FirstAndLastDigit()
    ensures DigitValue('0') == 0 && DigitValue('7') == 7
  {
  }

  lemma PlacesOfDigits(u: bv16, g: bv16, o: bv16)
    requires u <= 7 && g <= 7 && o <= 7
    ensures FromDigits(u, g, o) == 64 * u + 8 * g + o
  {
  }

  // ---------------------------------------------------------------- several actions

  lemma {:induction false} PermsSuffix(s: string) returns (k: nat)
    ensures k <= |s| && TakePerms(s).rest == s[k..] && IsPermText(s[..k])
    ensures k < |s| ==> !IsClassLetter(s[k]) && !IsBitLetter(s[k])
  {
    k := 0;
    if s != "" {
      PermLetters(s[0]);
      if PermOf(s[0]) != NO_BITS {
        var j := PermsSuffix(s[1..]);
        k := j + 1;
      }
    }
  }

  lemma PermLetters(c: char)
    ensures PermOf(c) != NO_BITS <==> IsClassLetter(c) || IsBitLetter(c)
  {
  }

  lemma ActionsStep(s: string)
    requires s != "" && IsOp(s[0])
    ensures var bits := TakePerms(s[1..]);
      var more := TakeActions(bits.rest);
      |bits.rest| < |s| && TakeActions(s) == Taken([ActionOf(s[0], bits.value)] + more.value, more.rest)
  {
    hide TakePerms, IsOp, ActionOf;
    TakePermsShrinks(s[1..]);
  }

  /** Actions that follow each other are read as such. */
  lemma {:induction false} ActionsAppend(a: string, b: string)
    requires b != "" && IsOp(b[0]) && IsActionText(a)
    ensures TakeActions(a + b).value == TakeActions(a).value + TakeActions(b).value
    ensures TakeActions(a + b).rest == TakeActions(b).rest
    decreases |a|
  {
    hide TakeActions, TakePerms, ActionOf, IsOp, IsPermText;
    if a == "" {
      assert a + b == b;
      NoActions();
      assert [] + TakeActions(b).value == TakeActions(b).value;
    } else {
      var k := PermsSuffix(a[1..]);
      var perms, rest := a[1..][..k], a[1..][k..];
      assert a[1..] == perms + rest && (a + b)[1..] == perms + (rest + b);
      RestIsActions(a, k);
      OpsAreNoLetters(b[0]);
      if rest != "" {
        OpsAreNoLetters(rest[0]);
      }
      PermsTaken(perms, rest);
      PermsTaken(perms, rest + b);
      PermsTakenAlike(perms, rest, rest + b);
      ActionsStep(a);
      ActionsStep(a + b);
      ActionsAppend(rest, b);
      Assoc([ActionOf(a[0], TakePerms(a[1..]).value)], TakeActions(rest).value, TakeActions(b).value);
    }
  }

  /** Operators, each followed by permission letters. */
  predicate IsActionText(s: string) {
    s == "" || (IsOp(s[0]) && forall i :: 0 <= i < |s| ==> IsOp(s[i]) || IsClassLetter(s[i]) || IsBitLetter(s[i]))
  }

  lemma RestIsActions(a: string, k: nat)
    requires IsActionText(a) && a != "" && k <= |a| - 1
    requires k < |a| - 1 ==> !IsClassLetter(a[1..][k]) && !IsBitLetter(a[1..][k])
    ensures IsActionText(a[1..][k..])
  {
    var rest := a[1..][k..];
    assert forall i :: 0 <= i < |rest| ==> rest[i] == a[1 + k + i];
  }

  lemma {:induction false} PermsTakenAlike(perms: string, x: string, y: string)
    requires IsPermText(perms)
    requires (x == "" || PermOf(x[0]) == NO_BITS) && (y == "" || PermOf(y[0]) == NO_BITS)
    ensures TakePerms(perms + x).value == TakePerms(perms + y).value
  {
    hide PermOf, Both;
    if perms == "" {
      assert perms + x == x && perms + y == y;
    } else {
      assert (perms + x)[1..] == perms[1..] + x && (perms + y)[1..] == perms[1..] + y;
      PermsTakenAlike(perms[1..], x, y);
    }
  }

  /** All of a text of actions is read. */
  lemma {:induction false} ActionsTaken(s: string)
    ensures TakeActions(s).rest == "" <==> IsActionText(s)
    ensures IsActionText(s) && s != "" ==> TakeActions(s).value != []
    decreases |s|
  {
    hide PermOf;
    if s != "" && IsOp(s[0]) {
      var k := PermsSuffix(s[1..]);
      TakePermsShrinks(s[1..]);
      ActionsTaken(s[1..][k..]);
      RestWhole(s, k);
    }
  }

  lemma RestWhole(s: string, k: nat)
    requires s != "" && IsOp(s[0]) && k <= |s| - 1 && IsPermText(s[1..][..k])
    requires k < |s| - 1 ==> !IsClassLetter(s[1..][k]) && !IsBitLetter(s[1..][k])
    ensures IsActionText(s) <==> IsActionText(s[1..][k..])
  {
    var perms, rest := s[1..][..k], s[1..][k..];
    assert forall i :: 0 <= i < k ==> s[1 + i] == perms[i];
    assert forall i :: 0 <= i < |rest| ==> rest[i] == s[1 + k + i];
    if IsActionText(rest) {
      forall i | 0 <= i < |s| ensures IsOp(s[i]) || IsClassLetter(s[i]) || IsBitLetter(s[i]) {
        if i > k {
          assert s[i] == rest[i - 1 - k];
        } else if i > 0 {
          assert s[i] == perms[i - 1];
        }
      }
    }
  }

  // ---------------------------------------------------------------- exactly which texts are modes

  lemma {:induction false} WhoSuffix(s: string) returns (k: nat)
    ensures k <= |s| && TakeWho(s).rest == s[k..] && IsWhoText(s[..k])
    ensures k < |s| ==> !IsClassLetter(s[k]) && s[k] != 'a'
  {
    k := 0;
    if s != "" {
      WhoLetters(s[0]);
      if WhoOf(s[0]) != {} {
        var j := WhoSuffix(s[1..]);
        k := j + 1;
      }
    }
  }

  lemma WhoLetters(c: char)
    ensures WhoOf(c) != {} <==> IsClassLetter(c) || c == 'a'
  {
    assert User in WhoOf('a') && User in WhoOf('u') && Group in WhoOf('g') && Other in WhoOf('o');
  }

  /** Class letters, and then at least one action. */
  ghost predicate IsClauseText(x: string) {
    exists k: nat :: k < |x| && IsWhoText(x[..k]) && IsActionText(x[k..])
  }

  /** A piece between commas is a clause exactly when it is class letters and then actions. */
  lemma ClauseTextIff(x: string)
    ensures ClauseOf(x).Some? <==> IsClauseText(x)
  {
    hide TakeWho, TakeActions, WhoOf, IsActionText;
    var k := WhoSuffix(x);
    ActionsTaken(x[k..]);
    NoActions();
    if IsClauseText(x) {
      var j: nat :| j < |x| && IsWhoText(x[..j]) && IsActionText(x[j..]);
      FirstOp(x, j);
      SameSplit(x, j, k);
    }
    if ClauseOf(x).Some? {
      assert k < |x|;
    }
  }

  /** Class letters end at just one place. */
  lemma SameSplit(x: string, j: nat, k: nat)
    requires j < |x| && k <= |x| && IsWhoText(x[..j]) && IsWhoText(x[..k])
    requires !IsClassLetter(x[j]) && x[j] != 'a' && (k < |x| ==> !IsClassLetter(x[k]) && x[k] != 'a')
    ensures j == k
  {
  }

  lemma NoActions()
    ensures TakeActions("") == Taken([], "")
  {
  }

  lemma FirstOp(x: string, j: nat)
    requires j < |x| && IsActionText(x[j..])
    ensures IsOp(x[j]) && !IsClassLetter(x[j]) && x[j] != 'a'
  {
    assert x[j..][0] == x[j];
  }

  /**
   * A text is a symbolic mode exactly when each piece between commas is class letters and then
   * actions, and a numeric one exactly when it is three octal digits.
   */
  lemma ModeTextIff(s: string)
    ensures ModeOf(s).Some? <==>
      (|s| == 3 && AllDigits(s) && forall c <- s :: IsOctalDigit(c)) ||
      forall i :: 0 <= i < |Words.Split(s, ',')| ==> IsClauseText(Words.Split(s, ',')[i])
  {
    hide ModeOf, ClausesOf, IsClauseText, Words.Split, AllDigits;
    SymbolicIsList(s);
    ListIsSplit(s);
    ClausesIff(Words.Split(s, ','));
    NumericMeans(s, 0);
    NumericIsDigits(s);
  }

  lemma NumericIsDigits(s: string)
    ensures ModeOf(s).Some? && ModeOf(s).value.Numeric? ==> AllDigits(s)
    ensures AllDigits(s) && ModeOf(s).Some? ==> |s| == 3
  {
    hide TakeClauses;
  }

  lemma {:induction false} ClausesIff(pieces: seq<string>)
    ensures ClausesOf(pieces).Some? <==> forall i :: 0 <= i < |pieces| ==> IsClauseText(pieces[i])
  {
    hide ClauseOf, IsClauseText;
    if pieces != [] {
      ClauseTextIff(pieces[0]);
      ClausesIff(pieces[1..]);
      if ClausesOf(pieces).Some? {
        forall i | 0 <= i < |pieces| ensures IsClauseText(pieces[i]) {
          assert i > 0 ==> pieces[i] == pieces[1..][i - 1];
        }
      }
      assert forall i :: 0 <= i < |pieces[1..]| ==> pieces[1..][i] == pieces[i + 1];
    }
  }

  /** Actions of one clause act one after the other, each as a clause of its own would. */
  lemma ActionsInTurn(who: string, a: string, op: char, more: string, mode: bv16)
    requires IsWhoText(who) && a != "" && IsActionText(a) && IsActionText([op] + more)
    ensures var m, m1, m2 := ModeOf(who + a + [op] + more), ModeOf(who + a), ModeOf(who + [op] + more);
      m.Some? && m1.Some? && m2.Some? &&
      Applied(m.value, mode) == Applied(m2.value, Applied(m1.value, mode))
  {
    hide TakeWho, TakeActions, WhoOf, ModeOf, IsActionText, AfterActions, Applied;
    assert ([op] + more)[0] == op;
    FirstOp(a, 0);
    FirstOp([op] + more, 0);
    assert a[0..] == a && ([op] + more)[0..] == [op] + more;
    ActionsAppend(a, [op] + more);
    var c1 := WhoThenActions(who, a);
    var c2 := WhoThenActions(who, [op] + more);
    assert a + ([op] + more) == a + [op] + more && (a + [op] + more)[0] == a[0];
    BothAreActions(a, [op] + more);
    var c := WhoThenActions(who, a + [op] + more);
    assert who + (a + [op] + more) == who + a + [op] + more && who + ([op] + more) == who + [op] + more;
    ClauseApplied(c, mode);
    ClauseApplied(c1, mode);
    ClauseApplied(c2, Applied(Symbolic([c1]), mode));
    AfterActionsAppend(c.who, c1.actions, c2.actions, mode);
  }

  lemma BothAreActions(a: string, b: string)
    requires IsActionText(a) && IsActionText(b)
    ensures IsActionText(a + b)
  {
  }

  lemma WhoThenActions(who: string, a: string) returns (c: Clause)
    requires IsWhoText(who) && a != "" && IsActionText(a)
    ensures ModeOf(who + a) == Some(Symbolic([c])) && c.actions == TakeActions(a).value
    ensures c.who == if TakeWho(who).value == {} then ALL else TakeWho(who).value
  {
    hide TakeWho, TakeActions, WhoOf, IsOp;
    var s := who + a;
    OpsAreNoLetters(a[0]);
    WhoTaken(who, a);
    WhoTakenAlike(who, a);
    ActionsTaken(a);
    c := TakeClause(s).value.value;
    assert TakeClauses(s) == Some(Taken([c], ""));
    assert s[|who|] == a[0] && !IsDigit(s[|who|]) && s[|who|] in s;
  }

  lemma {:induction false} WhoTakenAlike(who: string, rest: string)
    requires IsWhoText(who) && (rest == "" || WhoOf(rest[0]) == {})
    ensures TakeWho(who + rest).value == TakeWho(who).value
  {
    hide WhoOf;
    if who == "" {
      assert who + rest == rest;
    } else {
      assert (who + rest)[1..] == who[1..] + rest;
      WhoTakenAlike(who[1..], rest);
    }
  }

  lemma ClauseApplied(c: Clause, mode: bv16)
    ensures Applied(Symbolic([c]), mode) == AfterActions(c.who, c.actions, mode)
  {
    hide AfterActions;
    assert [c][1..] == [];
    assert AfterClauses([c], mode) == AfterClauses([], AfterActions(c.who, c.actions, mode));
  }

  lemma {:induction false} AfterActionsAppend(who: set<Class>, a: seq<Action>, b: seq<Action>, mode: bv16)
    ensures AfterActions(who, a + b, mode) == AfterActions(who, b, AfterActions(who, a, mode))
  {
    hide AfterAction;
    if a == [] {
      assert a + b == b;
    } else {
      assert (a + b)[1..] == a[1..] + b;
      AfterActionsAppend(who, a[1..], b, AfterAction(who, a[0], mode));
    }
  }
}
