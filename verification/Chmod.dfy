/** The mode language of `chmod`: its parser and its interpreter. */
module Chmod {
  import opened Basics
  import opened Words

  // ---------------------------------------------------------------- syntax

  datatype Class = User | Group | Other

  const ALL: set<Class> := {User, Group, Other}

  /** Three permission bits: read, write, execute. */
  type Octal = b: bv16 | b <= 7

  /** Bits given as letters, and classes whose bits are copied when the mode is applied. */
  datatype PermBits = PermBits(literal: Octal, copyFrom: set<Class>)

  datatype Action = Equal(bits: PermBits) | Plus(bits: PermBits) | Minus(bits: PermBits)

  datatype Clause = Clause(who: set<Class>, actions: seq<Action>)

  datatype Mode = Numeric(value: bv16) | Symbolic(clauses: seq<Clause>)

  // ---------------------------------------------------------------- parsing

  /** What a parser read, and what it left. */
  datatype Taken<+T> = Taken(value: T, rest: string)

  function WhoOf(c: char): set<Class> {
    if c == 'a' then ALL
    else if c == 'u' then {User}
    else if c == 'g' then {Group}
    else if c == 'o' then {Other}
    else {}
  }

  /** `many0(Who::parse_from)`, folded; nothing was read when the set is empty. */
  function TakeWho(s: string): Taken<set<Class>> {
    if s == "" || WhoOf(s[0]) == {} then Taken({}, s)
    else
      var more := TakeWho(s[1..]);
      Taken(WhoOf(s[0]) + more.value, more.rest)
  }

  const NO_BITS := PermBits(0, {})

  function PermOf(c: char): PermBits {
    if c == 'r' then PermBits(4, {})
    else if c == 'w' then PermBits(2, {})
    else if c == 'x' then PermBits(1, {})
    else if c == 'u' then PermBits(0, {User})
    else if c == 'g' then PermBits(0, {Group})
    else if c == 'o' then PermBits(0, {Other})
    else NO_BITS
  }

  function Both(a: PermBits, b: PermBits): PermBits {
    PermBits(a.literal | b.literal, a.copyFrom + b.copyFrom)
  }

  /** `many0(perm)`, folded. */
  function TakePerms(s: string): Taken<PermBits> {
    if s == "" || PermOf(s[0]) == NO_BITS then Taken(NO_BITS, s)
    else
      var more := TakePerms(s[1..]);
      Taken(Both(PermOf(s[0]), more.value), more.rest)
  }

  predicate IsOp(c: char) {
    c == '+' || c == '-' || c == '='
  }

  function ActionOf(op: char, bits: PermBits): Action {
    if op == '+' then Plus(bits) else if op == '-' then Minus(bits) else Equal(bits)
  }

  lemma {:induction false} TakePermsShrinks(s: string)
    ensures |TakePerms(s).rest| <= |s|
  {
    if s != "" && PermOf(s[0]) != NO_BITS {
      TakePermsShrinks(s[1..]);
    }
  }

  /** `many0(Action::parse_from)`. */
  function TakeActions(s: string): Taken<seq<Action>>
    decreases |s|
  {
    if s == "" || !IsOp(s[0]) then Taken([], s)
    else
      var bits := TakePerms(s[1..]);
      TakePermsShrinks(s[1..]);
      var more := TakeActions(bits.rest);
      Taken([ActionOf(s[0], bits.value)] + more.value, more.rest)
  }

  /** `ModeClause::parse_from`: no classes mean all of them, but some action must follow. */
  function TakeClause(s: string): Option<Taken<Clause>> {
    var who := TakeWho(s);
    var actions := TakeActions(who.rest);
    if actions.value == [] then None
    else Some(Taken(Clause(if who.value == {} then ALL else who.value, actions.value), actions.rest))
  }

  lemma {:induction false} TakeWhoShrinks(s: string)
    ensures |TakeWho(s).rest| <= |s|
  {
    if s != "" && WhoOf(s[0]) != {} {
      TakeWhoShrinks(s[1..]);
    }
  }

  lemma {:induction false} TakeActionsShrinks(s: string)
    ensures |TakeActions(s).rest| <= |s|
    decreases |s|
  {
    if s != "" && IsOp(s[0]) {
      TakePermsShrinks(s[1..]);
      TakeActionsShrinks(TakePerms(s[1..]).rest);
    }
  }

  /** `separated_list1(char(','), ModeClause::parse_from)`; a comma that no clause follows is left. */
  function TakeClauses(s: string): Option<Taken<seq<Clause>>>
    decreases |s|
  {
    var first := TakeClause(s);
    if first.None? then None
    else
      TakeWhoShrinks(s);
      TakeActionsShrinks(TakeWho(s).rest);
      var rest := first.value.rest;
      if rest == "" || rest[0] != ',' then Some(Taken([first.value.value], rest))
      else
        var more := TakeClauses(rest[1..]);
        if more.None? then Some(Taken([first.value.value], rest))
        else Some(Taken([first.value.value] + more.value.value, more.value.rest))
  }

  predicate IsDigit(c: char) {
    '0' <= c <= '9'
  }

  predicate AllDigits(s: string) {
    forall c <- s :: IsDigit(c)
  }

  predicate IsOctalDigit(c: char) {
    '0' <= c <= '7'
  }

  function DigitValue(c: char): (v: bv16)
    requires IsOctalDigit(c)
    ensures v <= 7
  {
    (c as int - '0' as int) as bv16
  }

  function FromDigits(u: bv16, g: bv16, o: bv16): bv16 {
    (u << 6) | (g << 3) | o
  }

  /** `FromStr for Mode`, keeping of an error only that there is one. */
  function ModeOf(s: string): Option<Mode> {
    if AllDigits(s) then
      if |s| == 3 && IsOctalDigit(s[0]) && IsOctalDigit(s[1]) && IsOctalDigit(s[2]) then
        Some(Numeric(FromDigits(DigitValue(s[0]), DigitValue(s[1]), DigitValue(s[2]))))
      else None
    else
      var list := TakeClauses(s);
      if list.Some? && list.value.rest == "" then Some(Symbolic(list.value.value)) else None
  }

  // ---------------------------------------------------------------- applying

  /** The three permission bits of a class. */
  function ClassBits(c: Class, mode: bv16): bv16 {
    match c
    case User => (mode >> 6) & 7
    case Group => (mode >> 3) & 7
    case Other => mode & 7
  }

  /** `Who::to_permission_bits`. */
  function Spread(who: set<Class>, n: bv16): bv16 {
    (if User in who then n << 6 else 0) | (if Group in who then n << 3 else 0) | (if Other in who then n else 0)
  }

  /** `PermBits::resolve`: the bits that are copied are those of the mode as it stands. */
  function Resolved(bits: PermBits, mode: bv16): bv16 {
    bits.literal
    | (if User in bits.copyFrom then (mode >> 6) & 7 else 0)
    | (if Group in bits.copyFrom then (mode >> 3) & 7 else 0)
    | (if Other in bits.copyFrom then mode & 7 else 0)
  }

  function Joined(a: bv16, b: bv16): bv16 {
    a | b
  }

  function Cleared(a: bv16, b: bv16): bv16 {
    a & !b
  }

  function AddBits(who: set<Class>, m: bv16, mode: bv16): bv16 {
    Joined(mode, Spread(who, m))
  }

  function RemoveBits(who: set<Class>, m: bv16, mode: bv16): bv16 {
    Cleared(mode, Spread(who, m))
  }

  function SetBits(who: set<Class>, m: bv16, mode: bv16): bv16 {
    AddBits(who, m, RemoveBits(who, 7, mode))
  }

  function AfterAction(who: set<Class>, a: Action, mode: bv16): bv16 {
    var m := Resolved(a.bits, mode);
    match a
    case Equal(_) => SetBits(who, m, mode)
    case Plus(_) => AddBits(who, m, mode)
    case Minus(_) => RemoveBits(who, m, mode)
  }

  function AfterActions(who: set<Class>, actions: seq<Action>, mode: bv16): bv16 {
    if actions == [] then mode else AfterActions(who, actions[1..], AfterAction(who, actions[0], mode))
  }

  function AfterClauses(clauses: seq<Clause>, mode: bv16): bv16 {
    if clauses == [] then mode
    else AfterClauses(clauses[1..], AfterActions(clauses[0].who, clauses[0].actions, mode))
  }

  function Applied(m: Mode, mode: bv16): bv16 {
    match m
    case Numeric(value) => value
    case Symbolic(clauses) => AfterClauses(clauses, mode)
  }

  /** `Mode::apply_to`. */
  method ApplyTo(m: Mode, before: bv16) returns (mode: bv16)
    ensures mode == Applied(m, before)
  {
    hide AfterAction;
    if m.Numeric? {
      return m.value;
    }
    mode := before;
    assert m.clauses[0..] == m.clauses;
    for i := 0 to |m.clauses|
      invariant AfterClauses(m.clauses, before) == AfterClauses(m.clauses[i..], mode)
    {
      var left, clause := m.clauses[i..], m.clauses[i];
      assert left[1..] == m.clauses[i + 1..];
      ghost var start := mode;
      assert clause.actions[0..] == clause.actions;
      for j := 0 to |clause.actions|
        invariant AfterActions(clause.who, clause.actions, start) ==
                  AfterActions(clause.who, clause.actions[j..], mode)
      {
        assert clause.actions[j..][1..] == clause.actions[j + 1..];
        mode := AfterAction(clause.who, clause.actions[j], mode);
      }
    }
  }

  // ---------------------------------------------------------------- what is accepted

  /** What a parser leaves of a text that a comma ends, when it is given more after the comma. */
  function Extended<T>(t: Taken<T>, more: string): Taken<T> {
    Taken(t.value, t.rest + more)
  }

  lemma {:induction false} WhoStopsAtComma(x: string, more: string)
    requires more != "" ==> more[0] == ','
    ensures TakeWho(x + more) == Extended(TakeWho(x), more)
  {
    if x == "" {
      assert x + more == more;
    } else {
      assert (x + more)[1..] == x[1..] + more;
      WhoStopsAtComma(x[1..], more);
    }
  }

  lemma {:induction false} PermsStopAtComma(x: string, more: string)
    requires more != "" ==> more[0] == ','
    ensures TakePerms(x + more) == Extended(TakePerms(x), more)
  {
    if x == "" {
      assert x + more == more;
    } else {
      assert (x + more)[1..] == x[1..] + more;
      PermsStopAtComma(x[1..], more);
    }
  }

  lemma {:induction false} ActionsStopAtComma(x: string, more: string)
    requires more != "" ==> more[0] == ','
    ensures TakeActions(x + more) == Extended(TakeActions(x), more)
    decreases |x|
  {
    if x == "" {
      assert x + more == more;
    } else {
      assert (x + more)[1..] == x[1..] + more;
      PermsStopAtComma(x[1..], more);
      TakePermsShrinks(x[1..]);
      ActionsStopAtComma(TakePerms(x[1..]).rest, more);
    }
  }

  /** A clause never reads past a comma. */
  lemma ClauseStopsAtComma(x: string, more: string)
    requires more != "" ==> more[0] == ','
    ensures TakeClause(x + more) ==
            if TakeClause(x).None? then None else Some(Extended(TakeClause(x).value, more))
  {
    WhoStopsAtComma(x, more);
    ActionsStopAtComma(TakeWho(x).rest, more);
  }

  /** The clause that a whole text spells, if it spells one. */
  function ClauseOf(x: string): Option<Clause> {
    var c := TakeClause(x);
    if c.Some? && c.value.rest == "" then Some(c.value.value) else None
  }

  function ClausesOf(pieces: seq<string>): Option<seq<Clause>> {
    if pieces == [] then Some([])
    else
      var first, rest := ClauseOf(pieces[0]), ClausesOf(pieces[1..]);
      if first.None? || rest.None? then None else Some([first.value] + rest.value)
  }

  /** The whole-text result of the list parser. */
  function ListOf(s: string): Option<seq<Clause>> {
    var list := TakeClauses(s);
    if list.Some? && list.value.rest == "" then Some(list.value.value) else None
  }

  lemma RestIsFree(x: string)
    requires Free(x, ',') && TakeClause(x).Some?
    ensures Free(TakeClause(x).value.rest, ',')
  {
    WhoRestIsFree(x);
    ActionsRestIsFree(TakeWho(x).rest);
  }

  lemma {:induction false} WhoRestIsFree(x: string)
    requires Free(x, ',')
    ensures Free(TakeWho(x).rest, ',')
  {
    if x != "" && WhoOf(x[0]) != {} {
      WhoRestIsFree(x[1..]);
    }
  }

  lemma {:induction false} PermsRestIsFree(x: string)
    requires Free(x, ',')
    ensures Free(TakePerms(x).rest, ',')
  {
    if x != "" && PermOf(x[0]) != NO_BITS {
      PermsRestIsFree(x[1..]);
    }
  }

  lemma {:induction false} ActionsRestIsFree(x: string)
    requires Free(x, ',')
    ensures Free(TakeActions(x).rest, ',')
    decreases |x|
  {
    if x != "" && IsOp(x[0]) {
      PermsRestIsFree(x[1..]);
      TakePermsShrinks(x[1..]);
      ActionsRestIsFree(TakePerms(x[1..]).rest);
    }
  }

  /**
   * The greedy list parser accepts a text exactly when each piece between commas is one whole
   * clause, and gives those clauses in order.
   */
  lemma {:induction false} ListIsPieces(pieces: seq<string>)
    requires pieces != [] && AllFree(pieces, ',')
    ensures ListOf(Join(pieces, ',')) == ClausesOf(pieces)
  {
    hide TakeClause;
    var x := pieces[0];
    assert Free(x, ',');
    if TakeClause(x).Some? {
      RestIsFree(x);
      var r := TakeClause(x).value.rest;
      assert r != "" ==> r[0] in r;
    }
    if |pieces| == 1 {
      assert pieces[1..] == [];
      assert ClausesOf(pieces[1..]) == Some([]);
      if ClauseOf(x).Some? {
        assert [ClauseOf(x).value] + [] == [ClauseOf(x).value];
      }
    } else {
      var tail := Join(pieces[1..], ',');
      assert Join(pieces, ',') == x + ("," + tail);
      ClauseStopsAtComma(x, "," + tail);
      ListIsPieces(pieces[1..]);
      if TakeClause(x).Some? && TakeClause(x).value.rest == "" {
        assert ("" + ("," + tail))[1..] == tail;
      }
    }
  }

  lemma ListIsSplit(s: string)
    ensures ListOf(s) == ClausesOf(Split(s, ','))
  {
    hide Split, Join, ListOf;
    SplitPieces(s, ',');
    ListIsPieces(Split(s, ','));
  }

  lemma {:induction false} ClausesOfAppend(a: seq<string>, b: seq<string>)
    ensures ClausesOf(a + b) ==
      if ClausesOf(a).None? || ClausesOf(b).None? then None
      else Some(ClausesOf(a).value + ClausesOf(b).value)
  {
    hide ClauseOf;
    if a == [] {
      assert a + b == b;
      if ClausesOf(b).Some? {
        assert [] + ClausesOf(b).value == ClausesOf(b).value;
      }
    } else {
      assert (a + b)[1..] == a[1..] + b;
      ClausesOfAppend(a[1..], b);
      if ClauseOf(a[0]).Some? && ClausesOf(a[1..]).Some? && ClausesOf(b).Some? {
        Assoc([ClauseOf(a[0]).value], ClausesOf(a[1..]).value, ClausesOf(b).value);
      }
    }
  }

  lemma {:induction false} SplitBoth(a: string, sep: char, b: string)
    ensures Split(a + [sep] + b, sep) == Split(a, sep) + Split(b, sep)
  {
    hide Split;
    SplitPieces(a, sep);
    SplitPieces(b, sep);
    var p, q := Split(a, sep), Split(b, sep);
    JoinBoth(p, q, sep);
    SplitJoin(p + q, sep);
  }

  lemma {:induction false} JoinBoth(p: seq<string>, q: seq<string>, sep: char)
    requires p != [] && q != []
    ensures Join(p + q, sep) == Join(p, sep) + [sep] + Join(q, sep)
  {
    assert (p + q)[1..] == p[1..] + q;
    if |p| == 1 {
      assert p[1..] + q == q;
    } else {
      JoinBoth(p[1..], q, sep);
    }
  }

  /** Digits alone are never a list of clauses. */
  lemma DigitsAreNoClauses(s: string)
    requires AllDigits(s)
    ensures ListOf(s) == None
  {
    if s != "" {
      assert IsDigit(s[0]);
    }
  }

  /**
   * `s1,s2` is a symbolic mode exactly when both sides are, it has the clauses of both in order,
   * and it acts as the second after the first.
   */
  lemma CommaComposes(s1: string, s2: string, mode: bv16)
    ensures var m, m1, m2 := ModeOf(s1 + "," + s2), ModeOf(s1), ModeOf(s2);
      (m.Some? <==> m1.Some? && m1.value.Symbolic? && m2.Some? && m2.value.Symbolic?) &&
      (m.Some? ==>
        m.value == Symbolic(m1.value.clauses + m2.value.clauses) &&
        Applied(m.value, mode) == Applied(m2.value, Applied(m1.value, mode)))
  {
    hide TakeClauses, ClausesOf, Split, ListOf, AfterClauses;
    var s := s1 + "," + s2;
    assert s[|s1|] == ',' && !IsDigit(s[|s1|]);
    SymbolicIsList(s);
    SymbolicIsList(s1);
    SymbolicIsList(s2);
    ListIsSplit(s);
    ListIsSplit(s1);
    ListIsSplit(s2);
    SplitBoth(s1, ',', s2);
    ClausesOfAppend(Split(s1, ','), Split(s2, ','));
    if ListOf(s).Some? {
      AfterClausesAppend(ListOf(s1).value, ListOf(s2).value, mode);
    }
  }

  lemma SymbolicIsList(s: string)
    ensures ListOf(s).Some? <==> ModeOf(s).Some? && ModeOf(s).value.Symbolic?
    ensures ListOf(s).Some? ==> ModeOf(s).value.clauses == ListOf(s).value
    ensures !AllDigits(s) && ModeOf(s).Some? ==> ModeOf(s).value.Symbolic?
  {
    hide TakeClauses;
    if AllDigits(s) {
      DigitsAreNoClauses(s);
    }
  }

  lemma {:induction false} AfterClausesAppend(a: seq<Clause>, b: seq<Clause>, mode: bv16)
    ensures AfterClauses(a + b, mode) == AfterClauses(b, AfterClauses(a, mode))
  {
    hide AfterActions;
    if a == [] {
      assert a + b == b;
    } else {
      assert (a + b)[1..] == a[1..] + b;
      AfterClausesAppend(a[1..], b, AfterActions(a[0].who, a[0].actions, mode));
    }
  }

  // ---------------------------------------------------------------- what is changed

  /** The permission bits an action speaks of: its letters and the classes it copies. */
  function Asked(bits: PermBits, mode: bv16): bv16 {
    bits.literal
    | (if User in bits.copyFrom then ClassBits(User, mode) else 0)
    | (if Group in bits.copyFrom then ClassBits(Group, mode) else 0)
    | (if Other in bits.copyFrom then ClassBits(Other, mode) else 0)
  }

  /** The bits above the nine permission bits. */
  function HighBits(mode: bv16): bv16 {
    mode & 0xFE00
  }

  lemma AskedIsOctal(bits: PermBits, mode: bv16)
    ensures Asked(bits, mode) <= 7 && Asked(bits, mode) == Resolved(bits, mode)
  {
  }

  lemma AddUser(who: set<Class>, m: bv16, mode: bv16)
    requires m <= 7
    ensures ClassBits(User, AddBits(who, m, mode)) ==
            if User in who then Joined(ClassBits(User, mode), m) else ClassBits(User, mode)
  {
  }

  lemma AddHigh(who: set<Class>, m: bv16, mode: bv16)
    requires m <= 7
    ensures HighBits(AddBits(who, m, mode)) == HighBits(mode)
  {
  }

  lemma AddGroup(who: set<Class>, m: bv16, mode: bv16)
    requires m <= 7
    ensures ClassBits(Group, AddBits(who, m, mode)) ==
            if Group in who then Joined(ClassBits(Group, mode), m) else ClassBits(Group, mode)
  {
  }

  lemma AddOther(who: set<Class>, m: bv16, mode: bv16)
    requires m <= 7
    ensures ClassBits(Other, AddBits(who, m, mode)) ==
            if Other in who then Joined(ClassBits(Other, mode), m) else ClassBits(Other, mode)
  {
  }

  lemma AddMeans(who: set<Class>, m: bv16, mode: bv16, c: Class)
    requires m <= 7
    ensures ClassBits(c, AddBits(who, m, mode)) ==
            if c in who then Joined(ClassBits(c, mode), m) else ClassBits(c, mode)
    ensures HighBits(AddBits(who, m, mode)) == HighBits(mode)
  {
    hide AddBits, ClassBits, HighBits, Joined;
    AddHigh(who, m, mode);
    AddUser(who, m, mode);
    AddGroup(who, m, mode);
    AddOther(who, m, mode);
  }

  lemma RemoveUser(who: set<Class>, m: bv16, mode: bv16)
    requires m <= 7
    ensures ClassBits(User, RemoveBits(who, m, mode)) ==
            if User in who then Cleared(ClassBits(User, mode), m) else ClassBits(User, mode)
  {
  }

  lemma RemoveHigh(who: set<Class>, m: bv16, mode: bv16)
    requires m <= 7
    ensures HighBits(RemoveBits(who, m, mode)) == HighBits(mode)
  {
  }

  lemma RemoveGroup(who: set<Class>, m: bv16, mode: bv16)
    requires m <= 7
    ensures ClassBits(Group, RemoveBits(who, m, mode)) ==
            if Group in who then Cleared(ClassBits(Group, mode), m) else ClassBits(Group, mode)
  {
  }

  lemma RemoveOther(who: set<Class>, m: bv16, mode: bv16)
    requires m <= 7
    ensures ClassBits(Other, RemoveBits(who, m, mode)) ==
            if Other in who then Cleared(ClassBits(Other, mode), m) else ClassBits(Other, mode)
  {
  }

  lemma RemoveMeans(who: set<Class>, m: bv16, mode: bv16, c: Class)
    requires m <= 7
    ensures ClassBits(c, RemoveBits(who, m, mode)) ==
            if c in who then Cleared(ClassBits(c, mode), m) else ClassBits(c, mode)
    ensures HighBits(RemoveBits(who, m, mode)) == HighBits(mode)
  {
    hide RemoveBits, ClassBits, HighBits, Cleared;
    RemoveHigh(who, m, mode);
    RemoveUser(who, m, mode);
    RemoveGroup(who, m, mode);
    RemoveOther(who, m, mode);
  }

  lemma SetMeans(who: set<Class>, m: bv16, mode: bv16, c: Class)
    requires m <= 7
    ensures ClassBits(c, SetBits(who, m, mode)) == if c in who then m else ClassBits(c, mode)
    ensures HighBits(SetBits(who, m, mode)) == HighBits(mode)
  {
    hide AddBits, RemoveBits, ClassBits, HighBits, Joined, Cleared;
    RemoveMeans(who, 7, mode, c);
    AddMeans(who, m, RemoveBits(who, 7, mode), c);
    NothingLeft(c, mode, m);
  }

  lemma NothingLeft(c: Class, mode: bv16, m: bv16)
    ensures Joined(Cleared(ClassBits(c, mode), 7), m) == m
  {
  }

  /** What an action makes of the bits of one class that it names. */
  function Made(a: Action, own: bv16, asked: bv16): bv16 {
    match a
    case Equal(_) => asked
    case Plus(_) => Joined(own, asked)
    case Minus(_) => Cleared(own, asked)
  }

  /** An action does to each named class what its sign says, and to nothing else anything. */
  lemma ActionMeans(who: set<Class>, a: Action, mode: bv16, c: Class)
    ensures ClassBits(c, AfterAction(who, a, mode)) ==
            if c in who then Made(a, ClassBits(c, mode), Asked(a.bits, mode)) else ClassBits(c, mode)
    ensures HighBits(AfterAction(who, a, mode)) == HighBits(mode)
  {
    hide SetBits, AddBits, RemoveBits, Joined, Cleared, Resolved, Asked, ClassBits, HighBits;
    var m := Resolved(a.bits, mode);
    AskedIsOctal(a.bits, mode);
    match a
    case Equal(_) => SetMeans(who, m, mode, c);
    case Plus(_) => AddMeans(who, m, mode, c);
    case Minus(_) => RemoveMeans(who, m, mode, c);
  }

  lemma {:induction false} ActionsKeepOthers(who: set<Class>, actions: seq<Action>, mode: bv16, c: Class)
    ensures c !in who ==> ClassBits(c, AfterActions(who, actions, mode)) == ClassBits(c, mode)
    ensures HighBits(AfterActions(who, actions, mode)) == HighBits(mode)
  {
    hide AfterAction, ClassBits, HighBits;
    if actions != [] {
      ActionMeans(who, actions[0], mode, c);
      ActionsKeepOthers(who, actions[1..], AfterAction(who, actions[0], mode), c);
    }
  }

  /** A symbolic mode changes no bit of a class it does not name, and none above the nine. */
  lemma {:induction false} OnlyNamedClassesChange(clauses: seq<Clause>, mode: bv16, c: Class)
    ensures (forall clause <- clauses :: c !in clause.who) ==>
      ClassBits(c, AfterClauses(clauses, mode)) == ClassBits(c, mode)
    ensures HighBits(AfterClauses(clauses, mode)) == HighBits(mode)
  {
    hide AfterActions, ClassBits, HighBits;
    if clauses != [] {
      var first := clauses[0];
      ActionsKeepOthers(first.who, first.actions, mode, c);
      OnlyNamedClassesChange(clauses[1..], AfterActions(first.who, first.actions, mode), c);
    }
  }

  /** Three octal digits set the three classes outright, and are the only numeric modes. */
  lemma NumericMeans(s: string, mode: bv16)
    ensures AllDigits(s) ==>
      (ModeOf(s).Some? <==> |s| == 3 && forall c <- s :: IsOctalDigit(c))
    ensures AllDigits(s) && ModeOf(s).Some? ==>
      var after := Applied(ModeOf(s).value, mode);
      ClassBits(User, after) == DigitValue(s[0]) && ClassBits(Group, after) == DigitValue(s[1]) &&
      ClassBits(Other, after) == DigitValue(s[2]) && HighBits(after) == 0
  {
    hide DigitValue, FromDigits, ClassBits, HighBits, IsOctalDigit, TakeClauses;
    if AllDigits(s) {
      assert |s| == 3 ==> forall c <- s :: c == s[0] || c == s[1] || c == s[2];
      if ModeOf(s).Some? {
        ThreeDigits(DigitValue(s[0]), DigitValue(s[1]), DigitValue(s[2]));
      }
    }
  }

  lemma ThreeDigits(u: bv16, g: bv16, o: bv16)
    requires u <= 7 && g <= 7 && o <= 7
    ensures var n := FromDigits(u, g, o);
      ClassBits(User, n) == u && ClassBits(Group, n) == g && ClassBits(Other, n) == o && HighBits(n) == 0
  {
  }
}
