/** The rewriters that turn bsdtar's old-style and `-W` arguments into ordinary options. */
module OldStyleArgs {
  import opened Basics

  /** An OS string, one character for each encoded byte. */
  type Word = string

  /** The short options that take an argument; `W` is one of them. */
  predicate TakesArgument(c: char) {
    c == 'b' || c == 'C' || c == 'f' || c == 'I' || c == 's' || c == 'T' || c == 'W' || c == 'X'
  }

  /** Global options whose value is the next word. */
  predicate TakesNextWord(w: Word) {
    w == "--color" || w == "--log-level"
  }

  predicate IsGlobalFlag(w: Word) {
    w == "--quiet" || w == "--unstable" || w == "--verbose"
  }

  predicate StartsWith(w: Word, prefix: Word) {
    |prefix| <= |w| && w[..|prefix|] == prefix
  }

  predicate HasInlineValue(w: Word) {
    StartsWith(w, "--color=") || StartsWith(w, "--log-level=")
  }

  predicate IsFlag(w: Word) {
    w != "" && w[0] == '-' && w != "--"
  }

  // ---------------------------------------------------------------- finding the subcommand

  /** One past an option and, if it has one, its value word. */
  function PastOption(args: seq<Word>, i: nat): nat
    requires i < |args|
  {
    if TakesNextWord(args[i]) && i + 1 < |args| then i + 2 else i + 1
  }

  /** Past the options of a kind, each with its value word; any other word ends them. */
  function Past(args: seq<Word>, i: nat, isOption: Word -> bool): nat
    decreases |args| - i
  {
    if i < |args| && isOption(args[i]) then Past(args, PastOption(args, i), isOption) else i
  }

  function PastFlags(args: seq<Word>, i: nat): nat {
    Past(args, i, IsFlag)
  }

  function PastKeyword(args: seq<Word>, i: nat, keyword: Word): Option<nat> {
    var j := PastFlags(args, i);
    if j < |args| && args[j] == keyword then Some(j + 1) else None
  }

  /** Where the words after `compat bsdtar` begin. */
  function AfterSubcommand(args: seq<Word>): Option<nat> {
    var i := PastKeyword(args, 1, "compat");
    if i.None? then None else PastKeyword(args, i.value, "bsdtar")
  }

  predicate IsGlobalOption(w: Word) {
    TakesNextWord(w) || IsGlobalFlag(w) || HasInlineValue(w)
  }

  function PastGlobals(args: seq<Word>, i: nat): nat {
    Past(args, i, IsGlobalOption)
  }

  lemma {:induction false} PastAtLeast(args: seq<Word>, i: nat, isOption: Word -> bool)
    ensures Past(args, i, isOption) >= i
    decreases |args| - i
  {
    if i < |args| && isOption(args[i]) {
      PastAtLeast(args, PastOption(args, i), isOption);
    }
  }

  /** `skip_leading_flags`. */
  method SkipLeadingFlags(args: seq<Word>, start: nat) returns (i: nat)
    ensures i == PastFlags(args, start)
  {
    i := start;
    while i < |args| && IsFlag(args[i])
      invariant PastFlags(args, start) == PastFlags(args, i)
      decreases |args| - i
    {
      var hasValue := TakesNextWord(args[i]);
      i := i + 1;
      if hasValue && i < |args| {
        i := i + 1;
      }
    }
  }

  /** `skip_known_global_flags`. */
  method SkipKnownGlobalFlags(args: seq<Word>, start: nat) returns (i: nat)
    ensures i == PastGlobals(args, start)
  {
    i := start;
    while i < |args|
      invariant PastGlobals(args, start) == PastGlobals(args, i)
      decreases |args| - i
    {
      if TakesNextWord(args[i]) {
        i := i + 1;
        if i < |args| {
          i := i + 1;
        }
      } else if IsGlobalFlag(args[i]) {
        i := i + 1;
      } else if HasInlineValue(args[i]) {
        i := i + 1;
      } else {
        break;
      }
    }
  }

  /** `find_bsdtar_subcommand`. */
  method FindBsdtarSubcommand(args: seq<Word>) returns (after: Option<nat>)
    ensures after == AfterSubcommand(args)
  {
    var i := SkipLeadingFlags(args, 1);
    if i >= |args| || args[i] != "compat" {
      return None;
    }
    var j := SkipLeadingFlags(args, i + 1);
    if j >= |args| || args[j] != "bsdtar" {
      return None;
    }
    return Some(j + 1);
  }

  // ---------------------------------------------------------------- where options end

  /** The word is the value of the option just before it. */
  predicate IsValue(args: seq<Word>, i: nat, k: nat, options: set<nat>) {
    i < k <= |args| && k - 1 in options && TakesNextWord(args[k - 1])
  }

  /**
   * From `i` to `j` every word is an option or the value of one, at `options` are the former,
   * and the word at `j`, if there is one, is neither.
   */
  ghost predicate Passed(args: seq<Word>, i: nat, j: nat, options: set<nat>, isOption: Word -> bool) {
    i <= j && (j <= |args| || j == i) &&
    (forall k :: i <= k < j ==> (k in options <==> !IsValue(args, i, k, options))) &&
    (forall k :: i <= k < j && k in options ==> isOption(args[k])) &&
    (j < |args| ==> !IsValue(args, i, j, options) && !isOption(args[j]))
  }

  ghost predicate OptionsEnd(args: seq<Word>, i: nat, j: nat, isOption: Word -> bool) {
    exists options :: Passed(args, i, j, options, isOption)
  }

  lemma {:induction false} PastIsPassed(args: seq<Word>, i: nat, isOption: Word -> bool) returns (options: set<nat>)
    ensures Passed(args, i, Past(args, i, isOption), options, isOption)
    ensures forall k <- options :: k >= i
    decreases |args| - i
  {
    hide Passed;
    if i < |args| && isOption(args[i]) {
      var later := PastIsPassed(args, PastOption(args, i), isOption);
      options := {i} + later;
      PastAtLeast(args, PastOption(args, i), isOption);
      OnePassed(args, i, Past(args, i, isOption), later, isOption);
    } else {
      options := {};
      NothingPassed(args, i, isOption);
    }
  }

  lemma NothingPassed(args: seq<Word>, i: nat, isOption: Word -> bool)
    requires !(i < |args| && isOption(args[i]))
    ensures Passed(args, i, i, {}, isOption)
  {
  }

  lemma OnePassed(args: seq<Word>, i: nat, j: nat, later: set<nat>, isOption: Word -> bool)
    requires i < |args| && isOption(args[i]) && Passed(args, PastOption(args, i), j, later, isOption)
    requires forall k <- later :: k >= PastOption(args, i)
    ensures Passed(args, i, j, {i} + later, isOption)
  {
    hide TakesNextWord, IsValue;
    var next, options := PastOption(args, i), {i} + later;
    forall k: nat | i <= k <= j && k < |args|
      ensures IsValue(args, i, k, options) <==> if k < next then k > i else IsValue(args, next, k, later)
    {
      ValuesAfterOne(args, i, k, later);
    }
    forall k | i <= k < j
      ensures (k in options <==> !IsValue(args, i, k, options)) && (k in options ==> isOption(args[k]))
    {
      if k < next {
        assert k == i || k !in later;
      } else {
        assert k in options <==> k in later;
      }
    }
  }

  lemma ValuesAfterOne(args: seq<Word>, i: nat, k: nat, later: set<nat>)
    requires i <= k < |args| && forall n <- later :: n >= PastOption(args, i)
    ensures IsValue(args, i, k, {i} + later) <==>
      if k < PastOption(args, i) then k > i else IsValue(args, PastOption(args, i), k, later)
  {
    hide TakesNextWord;
  }

  lemma {:induction false} PassedIsPast(args: seq<Word>, i: nat, j: nat, options: set<nat>, isOption: Word -> bool)
    requires Passed(args, i, j, options, isOption)
    ensures j == Past(args, i, isOption)
    decreases |args| - i
  {
    hide Passed;
    if i < |args| && isOption(args[i]) {
      PassedTail(args, i, j, options, isOption);
      PassedIsPast(args, PastOption(args, i), j, options, isOption);
    } else {
      NonePassed(args, i, j, options, isOption);
    }
  }

  lemma PassedTail(args: seq<Word>, i: nat, j: nat, options: set<nat>, isOption: Word -> bool)
    requires Passed(args, i, j, options, isOption) && i < |args| && isOption(args[i])
    ensures Passed(args, PastOption(args, i), j, options, isOption)
  {
    hide TakesNextWord;
    var next := PastOption(args, i);
    assert j > i && i in options && !IsValue(args, i, i, options);
    assert IsValue(args, i, i + 1, options) <==> TakesNextWord(args[i]);
    assert next <= j;
    assert next == i + 2 ==> i + 1 !in options;
    forall k | next <= k <= j && k < |args| ensures IsValue(args, next, k, options) <==> IsValue(args, i, k, options) {
    }
  }

  lemma NonePassed(args: seq<Word>, i: nat, j: nat, options: set<nat>, isOption: Word -> bool)
    requires Passed(args, i, j, options, isOption) && !(i < |args| && isOption(args[i]))
    ensures j == i
  {
    assert !IsValue(args, i, i, options);
  }

  /** Where options end: every word before is one or the value of one, and the next word is neither. */
  lemma OptionsEndIff(args: seq<Word>, i: nat, j: nat, isOption: Word -> bool)
    ensures j == Past(args, i, isOption) <==> OptionsEnd(args, i, j, isOption)
  {
    hide Past, Passed;
    var options := PastIsPassed(args, i, isOption);
    if OptionsEnd(args, i, j, isOption) {
      var others :| Passed(args, i, j, others, isOption);
      PassedIsPast(args, i, j, others, isOption);
    }
  }

  /** The subcommand is found exactly where only flags and their values stand before its two words. */
  lemma SubcommandIff(args: seq<Word>, after: nat)
    ensures AfterSubcommand(args) == Some(after) <==>
      exists i: nat :: OptionsEnd(args, 1, i, IsFlag) && i + 1 < after <= |args| && args[i] == "compat" &&
        OptionsEnd(args, i + 1, after - 1, IsFlag) && args[after - 1] == "bsdtar"
  {
    hide Past, OptionsEnd, IsFlag;
    var i := PastFlags(args, 1);
    OptionsEndIff(args, 1, i, IsFlag);
    PastAtLeast(args, 1, IsFlag);
    PastAtLeast(args, i + 1, IsFlag);
    if after > 0 {
      OptionsEndIff(args, i + 1, after - 1, IsFlag);
    }
    forall n | OptionsEnd(args, 1, n, IsFlag) ensures n == i {
      OptionsEndIff(args, 1, n, IsFlag);
    }
  }

  /** The same words up to `k`, which both lists have. */
  predicate AgreeUpTo(a: seq<Word>, b: seq<Word>, k: nat) {
    k <= |a| && k <= |b| && a[..k] == b[..k]
  }

  lemma {:induction false} PastFlagsIsLocal(a: seq<Word>, b: seq<Word>, i: nat, k: nat)
    requires AgreeUpTo(a, b, k) && PastFlags(a, i) < k
    ensures PastFlags(b, i) == PastFlags(a, i)
    decreases |a| - i
  {
    hide IsFlag, TakesNextWord;
    PastAtLeast(a, i, IsFlag);
    assert a[i] == a[..k][i] == b[i];
    if IsFlag(a[i]) {
      PastAtLeast(a, PastOption(a, i), IsFlag);
      PastFlagsIsLocal(a, b, PastOption(a, i), k);
    }
  }

  lemma AfterSubcommandIsLocal(a: seq<Word>, b: seq<Word>)
    requires AfterSubcommand(a).Some? && AgreeUpTo(a, b, AfterSubcommand(a).value)
    ensures AfterSubcommand(b) == AfterSubcommand(a)
  {
    hide IsFlag, TakesNextWord, Past;
    var k := AfterSubcommand(a).value;
    var i := PastKeyword(a, 1, "compat").value;
    PastAtLeast(a, i, IsFlag);
    PastFlagsIsLocal(a, b, 1, k);
    PastFlagsIsLocal(a, b, i, k);
    assert a[i - 1] == a[..k][i - 1] == b[i - 1];
    assert a[k - 1] == a[..k][k - 1] == b[k - 1];
  }

  lemma {:induction false} PastGlobalsIsLocal(a: seq<Word>, b: seq<Word>, i: nat, j: nat)
    requires AgreeUpTo(a, b, j) && PastGlobals(a, i) == j && j < |a| && j < |b| && !IsGlobalOption(b[j])
    ensures PastGlobals(b, i) == j
    decreases |a| - i
  {
    hide IsGlobalOption, TakesNextWord;
    PastAtLeast(a, i, IsGlobalOption);
    if i < j {
      assert a[i] == a[..j][i] == b[i];
      PastAtLeast(a, PastOption(a, i), IsGlobalOption);
      PastGlobalsIsLocal(a, b, PastOption(a, i), j);
    }
  }

  // ---------------------------------------------------------------- the old-style bundle

  predicate IsLetter(c: char) {
    'a' <= c <= 'z' || 'A' <= c <= 'Z'
  }

  predicate IsAction(c: char) {
    c == 'c' || c == 'x' || c == 't' || c == 'r' || c == 'u'
  }

  /** A bundle of old-style flags: letters only, and one of them an action. */
  predicate IsBundle(w: Word) {
    (forall c <- w :: IsLetter(c)) && exists c <- w :: IsAction(c)
  }

  /** Each flag becomes an option; one that takes an argument takes the next word, if any. */
  function Unpacked(flags: Word, rest: seq<Word>): seq<Word> {
    if flags == "" then rest
    else if TakesArgument(flags[0]) && rest != [] then
      ["-" + [flags[0]], rest[0]] + Unpacked(flags[1..], rest[1..])
    else ["-" + [flags[0]]] + Unpacked(flags[1..], rest)
  }

  function WithoutBundle(args: seq<Word>): seq<Word> {
    var after := AfterSubcommand(args);
    if after.None? then args
    else
      var i := PastGlobals(args, after.value);
      if i >= |args| || !IsBundle(args[i]) then args else args[..i] + Unpacked(args[i], args[i + 1..])
  }

  /** `expand_bsdtar_old_style_args`. */
  method ExpandBsdtarOldStyleArgs(args: seq<Word>) returns (result: seq<Word>)
    ensures result == WithoutBundle(args)
  {
    hide AfterSubcommand, Past, TakesArgument, IsBundle;
    var after := FindBsdtarSubcommand(args);
    if after.None? {
      return args;
    }
    var i := SkipKnownGlobalFlags(args, after.value);
    if i >= |args| || !IsBundle(args[i]) {
      return args;
    }
    var candidate := args[i];
    result := args[..i];
    var remaining := args[i + 1..];
    assert candidate[0..] == candidate;
    for k := 0 to |candidate|
      invariant args[..i] + Unpacked(candidate, args[i + 1..]) == result + Unpacked(candidate[k..], remaining)
    {
      var flags, c := candidate[k..], candidate[k];
      assert flags[1..] == candidate[k + 1..];
      if TakesArgument(c) && remaining != [] {
        Assoc(result, ["-" + [c], remaining[0]], Unpacked(flags[1..], remaining[1..]));
        assert result + ["-" + [c], remaining[0]] == result + ["-" + [c]] + [remaining[0]];
      } else {
        Assoc(result, ["-" + [c]], Unpacked(flags[1..], remaining));
      }
      result := result + ["-" + [c]];
      if TakesArgument(c) && remaining != [] {
        result := result + [remaining[0]];
        remaining := remaining[1..];
      }
    }
    result := result + remaining;
  }

  /** The words after a bundle, got back from what it was unpacked to. */
  function Repacked(flags: Word, words: seq<Word>): Option<seq<Word>>
    requires |words| >= |flags|
  {
    if flags == "" then Some(words)
    else if words[0] != "-" + [flags[0]] then None
    else if TakesArgument(flags[0]) && |words| > |flags| then
      var more := Repacked(flags[1..], words[2..]);
      if more.None? then None else Some([words[1]] + more.value)
    else Repacked(flags[1..], words[1..])
  }

  /**
   * Unpacking keeps every word after the bundle, once and in order: given the flags, which
   * stand dashed and in order between them, the words are got back.
   */
  lemma {:induction false} UnpackingKeepsWords(flags: Word, rest: seq<Word>)
    ensures |Unpacked(flags, rest)| == |flags| + |rest|
    ensures Repacked(flags, Unpacked(flags, rest)) == Some(rest)
  {
    hide TakesArgument;
    if flags != "" {
      if TakesArgument(flags[0]) && rest != [] {
        UnpackingKeepsWords(flags[1..], rest[1..]);
        RepacksWithArgument(flags, rest[0], Unpacked(flags[1..], rest[1..]));
        assert [rest[0]] + rest[1..] == rest;
      } else {
        UnpackingKeepsWords(flags[1..], rest);
        RepacksAlone(flags, Unpacked(flags[1..], rest));
      }
    }
  }

  lemma {:induction false} RepacksWithArgument(flags: Word, word: Word, words: seq<Word>)
    requires flags != "" && TakesArgument(flags[0]) && |words| >= |flags[1..]|
    ensures var r, all := Repacked(flags[1..], words), ["-" + [flags[0]], word] + words;
      Repacked(flags, all) == if r.None? then None else Some([word] + r.value)
  {
    hide TakesArgument;
    var all := ["-" + [flags[0]], word] + words;
    assert all[2..] == words && all[1] == word && all[0] == "-" + [flags[0]];
  }

  lemma {:induction false} RepacksAlone(flags: Word, words: seq<Word>)
    requires flags != "" && |words| >= |flags[1..]| && (TakesArgument(flags[0]) ==> |words| == |flags[1..]|)
    ensures Repacked(flags, ["-" + [flags[0]]] + words) == Repacked(flags[1..], words)
  {
    hide TakesArgument;
    assert (["-" + [flags[0]]] + words)[1..] == words;
  }

  lemma OptionIsNoBundle(c: char)
    ensures !IsBundle("-" + [c]) && (c != '-' ==> !IsGlobalOption("-" + [c]))
  {
    var w := "-" + [c];
    assert w[0] in w && w[0] == '-' && |w| == 2;
  }

  /** Words before the bundle are kept as they are, and expanding a second time does nothing. */
  lemma ExpandingBundleTwice(args: seq<Word>)
    ensures WithoutBundle(WithoutBundle(args)) == WithoutBundle(args)
  {
    hide AfterSubcommand, Past, TakesArgument, IsGlobalOption;
    var after := AfterSubcommand(args);
    if after.Some? {
      var i := PastGlobals(args, after.value);
      if i < |args| && IsBundle(args[i]) {
        var result := WithoutBundle(args);
        assert args[i] != "";
        var c := args[i][0];
        assert c in args[i] && IsLetter(c);
        assert result[i] == "-" + [c];
        OptionIsNoBundle(c);
        AfterIsWithin(args);
        PastAtLeast(args, after.value, IsGlobalOption);
        assert result[..i] == args[..i];
        assert result[..after.value] == result[..i][..after.value] == args[..after.value];
        AfterSubcommandIsLocal(args, result);
        PastGlobalsIsLocal(args, result, after.value, i);
      }
    }
  }

  /**
   * A bundle that only global options separate from the subcommand is unpacked where it stands,
   * and nothing else is touched: without one there, or without a subcommand, no word changes.
   */
  lemma BundleIsUnpacked(args: seq<Word>, after: nat, i: nat)
    requires AfterSubcommand(args) == Some(after) && OptionsEnd(args, after, i, IsGlobalOption)
    ensures i >= |args| || !IsBundle(args[i]) ==> WithoutBundle(args) == args
    ensures i < |args| && IsBundle(args[i]) ==>
      var flags, result := args[i], WithoutBundle(args);
      |result| == |args| - 1 + |flags| && result[..i] == args[..i] &&
      Repacked(flags, result[i..]) == Some(args[i + 1..])
  {
    hide AfterSubcommand, Past, OptionsEnd, IsBundle, TakesArgument, IsGlobalOption;
    OptionsEndIff(args, after, i, IsGlobalOption);
    if i < |args| && IsBundle(args[i]) {
      UnpackingKeepsWords(args[i], args[i + 1..]);
      assert WithoutBundle(args)[i..] == Unpacked(args[i], args[i + 1..]);
    }
  }

  /** A bundle names at least one action, in letters and nothing else. */
  lemma BundleIff(w: Word)
    ensures IsBundle(w) <==>
      (forall c <- w :: c in "abcdefghijklmnopqrstuvwxyz" || c in "ABCDEFGHIJKLMNOPQRSTUVWXYZ") &&
      ('c' in w || 'x' in w || 't' in w || 'r' in w || 'u' in w)
  {
    forall c: char ensures IsLetter(c) <==> c in "abcdefghijklmnopqrstuvwxyz" || c in "ABCDEFGHIJKLMNOPQRSTUVWXYZ" {
      LetterIff(c);
    }
  }

  lemma LetterIff(c: char)
    ensures IsLetter(c) <==> c in "abcdefghijklmnopqrstuvwxyz" || c in "ABCDEFGHIJKLMNOPQRSTUVWXYZ"
  {
    LowerIff(c);
    UpperIff(c);
  }

  lemma LowerIff(c: char)
    ensures c in "abcdefghijklmnopqrstuvwxyz" <==> 'a' <= c <= 'z'
  {
    AlphabetIff("abcdefghijklmnopqrstuvwxyz", 'a', c);
  }

  lemma UpperIff(c: char)
    ensures c in "ABCDEFGHIJKLMNOPQRSTUVWXYZ" <==> 'A' <= c <= 'Z'
  {
    AlphabetIff("ABCDEFGHIJKLMNOPQRSTUVWXYZ", 'A', c);
  }

  lemma AlphabetIff(letters: string, first: char, c: char)
    requires forall k :: 0 <= k < |letters| ==> letters[k] as int == first as int + k
    ensures c in letters <==> first as int <= c as int < first as int + |letters|
  {
    if first as int <= c as int < first as int + |letters| {
      assert letters[c as int - first as int] == c;
    }
  }

  lemma ArgumentIff(c: char)
    ensures TakesArgument(c) <==> c in "bCfIsTWX"
  {
  }

  /** Which letters take the next word: any other leaves it to the letters after it. */
  lemma LettersWithArgument(c: char, word: Word)
    ensures Unpacked([c, 'f'], [word]) ==
      if c in "bCfIsTWX" then ["-" + [c], word, "-f"] else ["-" + [c], "-f", word]
  {
    hide TakesArgument;
    ArgumentIff(c);
    ArgumentIff('f');
    assert [c, 'f'][1..] == "f" && "f"[1..] == "" && [word][1..] == [];
    assert Unpacked("", []) == [];
    assert Unpacked("f", []) == ["-f"] by {
      assert "-" + ['f'] == "-f";
    }
    assert Unpacked("f", [word]) == ["-" + ['f'], word] + Unpacked("", []);
  }

  /** The options that may stand between the subcommand and a bundle. */
  lemma GlobalOptionIff(w: Word)
    ensures IsGlobalOption(w) <==>
      w in ["--quiet", "--unstable", "--verbose", "--color", "--log-level"] ||
      exists v: Word :: w == "--color=" + v || w == "--log-level=" + v
  {
    hide TakesNextWord;
    StartsWithIff(w, "--color=");
    StartsWithIff(w, "--log-level=");
    assert TakesNextWord(w) <==> w == "--color" || w == "--log-level" by {
      ValueOptionIff(w);
    }
  }

  /** What is passed before the subcommand's two words: whatever has a dash, but a double one alone. */
  lemma FlagIff(w: Word)
    ensures IsFlag(w) <==> w != "--" && exists v: Word :: w == "-" + v
  {
    if IsFlag(w) {
      assert w == "-" + w[1..];
    }
  }

  /** The options whose value is a word of its own. */
  lemma ValueOptionIff(w: Word)
    ensures TakesNextWord(w) <==> w in ["--color", "--log-level"]
  {
  }

  lemma StartsWithIff(w: Word, prefix: Word)
    ensures StartsWith(w, prefix) <==> exists v: Word :: w == prefix + v
  {
    if StartsWith(w, prefix) {
      assert w == prefix + w[|prefix|..];
    }
  }

  lemma AfterIsWithin(args: seq<Word>)
    requires AfterSubcommand(args).Some?
    ensures AfterSubcommand(args).value <= |args|
  {
  }

  // ---------------------------------------------------------------- the -W option

  /** The index of the first short option from `i` on that takes an argument. */
  function FirstArgument(w: Word, i: nat): nat
    requires i <= |w|
    ensures i <= FirstArgument(w, i) <= |w|
    ensures FirstArgument(w, i) < |w| ==> TakesArgument(w[FirstArgument(w, i)])
    ensures forall k :: i <= k < FirstArgument(w, i) ==> !TakesArgument(w[k])
    decreases |w| - i
  {
    if i == |w| || TakesArgument(w[i]) then i else FirstArgument(w, i + 1)
  }

  /** A token split at its `-W`: the options before it and the argument run into it. */
  datatype Halves = Halves(leading: Option<Word>, runIn: Option<Word>)

  predicate IsShortGroup(w: Word) {
    StartsWith(w, "-") && !StartsWith(w, "--")
  }

  function SplitW(w: Word): Option<Halves> {
    if !IsShortGroup(w) then None
    else
      var i := FirstArgument(w, 1);
      if i == |w| || w[i] != 'W' then None
      else
        Some(Halves(if i > 1 then Some(w[..i]) else None,
                    if i + 1 < |w| then Some(w[i + 1..]) else None))
  }

  /** `split_w_option`. */
  method SplitWOption(w: Word) returns (r: Option<Halves>)
    ensures r == SplitW(w)
  {
    if !IsShortGroup(w) {
      return None;
    }
    for i := 1 to |w|
      invariant FirstArgument(w, 1) == FirstArgument(w, i)
    {
      if w[i] == 'W' {
        return Some(Halves(if i > 1 then Some(w[..i]) else None,
                           if i + 1 < |w| then Some(w[i + 1..]) else None));
      }
      if TakesArgument(w[i]) {
        return None;
      }
    }
    return None;
  }

  function Leading(h: Halves): seq<Word> {
    if h.leading.Some? then [h.leading.value] else []
  }

  /** The words after the subcommand, with each `-W` option in its long form. */
  function LongForms(words: seq<Word>): seq<Word> {
    if words == [] || words[0] == "--" then words
    else
      var h := SplitW(words[0]);
      if h.None? then [words[0]] + LongForms(words[1..])
      else if h.value.runIn.Some? then
        Leading(h.value) + ["--" + h.value.runIn.value] + LongForms(words[1..])
      else if |words| > 1 then Leading(h.value) + ["--" + words[1]] + LongForms(words[2..])
      else words
  }

  function WithLongForms(args: seq<Word>): seq<Word> {
    var after := AfterSubcommand(args);
    if after.Some? && after.value <= |args| then args[..after.value] + LongForms(args[after.value..]) else args
  }

  /** `expand_bsdtar_w_option`. */
  method ExpandBsdtarWOption(args: seq<Word>) returns (result: seq<Word>)
    ensures result == WithLongForms(args)
  {
    hide AfterSubcommand, SplitW, Leading;
    var after := FindBsdtarSubcommand(args);
    if after.None? {
      return args;
    }
    AfterIsWithin(args);
    result := args[..after.value];
    var iter := args[after.value..];
    var pastDoubleDash := false;
    while iter != []
      invariant args[..after.value] + LongForms(args[after.value..]) ==
                result + (if pastDoubleDash then iter else LongForms(iter))
      decreases |iter|
    {
      ghost var words := iter;
      var arg := iter[0];
      iter := iter[1..];
      var h := SplitWOption(arg);
      if !pastDoubleDash && arg == "--" {
        pastDoubleDash := true;
        result := result + [arg];
        assert words == [arg] + iter;
      } else if !pastDoubleDash && h.Some? {
        if h.value.runIn.Some? {
          Assoc(result, Leading(h.value) + ["--" + h.value.runIn.value], LongForms(iter));
          result := result + (Leading(h.value) + ["--" + h.value.runIn.value]);
        } else if iter != [] {
          assert words[2..] == iter[1..] && words[1] == iter[0];
          Assoc(result, Leading(h.value) + ["--" + iter[0]], LongForms(iter[1..]));
          result := result + (Leading(h.value) + ["--" + iter[0]]);
          iter := iter[1..];
        } else {
          result := result + [arg];
          assert words == [arg];
        }
      } else {
        if pastDoubleDash {
          assert words == [arg] + iter;
          Assoc(result, [arg], iter);
        } else {
          Assoc(result, [arg], LongForms(iter));
        }
        result := result + [arg];
      }
    }
  }

  lemma LongFormIsNoShortGroup(v: Word)
    ensures SplitW("--" + v) == None
  {
    assert ("--" + v)[..2] == "--";
  }

  /** What stands before a `W` holds no option with an argument, and is not the double dash. */
  lemma LeadingIsSettled(w: Word)
    requires SplitW(w).Some? && SplitW(w).value.leading.Some?
    ensures var l := SplitW(w).value.leading.value; SplitW(l) == None && l != "--" && l != w
  {
    var i := FirstArgument(w, 1);
    var l := w[..i];
    assert forall k :: 0 <= k < |l| ==> l[k] == w[k];
    assert FirstArgument(l, 1) == |l|;
    assert |l| == 2 ==> l == w[..2];
  }

  lemma {:induction false} LongFormsAfterSettled(w: Word, rest: seq<Word>)
    requires w != "--" && SplitW(w) == None
    ensures LongForms([w] + rest) == [w] + LongForms(rest)
  {
    assert ([w] + rest)[1..] == rest;
  }

  /** The words that one `-W` option becomes are left alone from then on. */
  lemma MadeIsSettled(w: Word, v: Word, rest: seq<Word>)
    requires SplitW(w).Some? && LongForms(rest) == rest
    ensures var made := Leading(SplitW(w).value) + ["--" + v] + rest; LongForms(made) == made
  {
    hide SplitW;
    LongFormIsNoShortGroup(v);
    var tail := ["--" + v] + rest;
    if v == "" {
      assert "--" + v == "--";
    } else {
      assert |"--" + v| > 2;
      LongFormsAfterSettled("--" + v, rest);
    }
    assert LongForms(tail) == tail;
    var h := SplitW(w).value;
    if h.leading.Some? {
      LeadingIsSettled(w);
      LongFormsAfterSettled(h.leading.value, tail);
      assert Leading(h) + ["--" + v] + rest == [h.leading.value] + tail;
    } else {
      assert Leading(h) + ["--" + v] + rest == tail;
    }
  }

  lemma {:induction false} LongFormsTwice(words: seq<Word>)
    ensures LongForms(LongForms(words)) == LongForms(words)
    decreases |words|
  {
    hide SplitW;
    if words != [] && words[0] != "--" {
      var h := SplitW(words[0]);
      if h.None? {
        LongFormsTwice(words[1..]);
        LongFormsAfterSettled(words[0], LongForms(words[1..]));
      } else if h.value.runIn.Some? {
        LongFormsTwice(words[1..]);
        MadeIsSettled(words[0], h.value.runIn.value, LongForms(words[1..]));
      } else if |words| > 1 {
        LongFormsTwice(words[2..]);
        MadeIsSettled(words[0], words[1], LongForms(words[2..]));
      }
    }
  }

  /** Rewriting `-W` options a second time does nothing. */
  lemma RewritingWTwice(args: seq<Word>)
    ensures WithLongForms(WithLongForms(args)) == WithLongForms(args)
  {
    hide AfterSubcommand, LongForms;
    var after := AfterSubcommand(args);
    if after.Some? {
      AfterIsWithin(args);
      var k, result := after.value, WithLongForms(args);
      assert result[..k] == args[..k] && result[k..] == LongForms(args[k..]);
      AfterSubcommandIsLocal(args, result);
      LongFormsTwice(args[k..]);
    }
  }

  /** A word that is read as an option: neither it nor any before it is the double dash. */
  ghost predicate IsRead(words: seq<Word>, i: nat) {
    i < |words| && forall j :: 0 <= j <= i ==> words[j] != "--"
  }

  /** No `-W` option is left, except a last one that lacks its argument. */
  ghost predicate NoneLeft(words: seq<Word>) {
    forall i: nat :: IsRead(words, i) && SplitW(words[i]).Some? ==>
      i == |words| - 1 && SplitW(words[i]).value.runIn.None?
  }

  lemma {:induction false} UnchangedIfNoneLeft(words: seq<Word>)
    requires NoneLeft(words)
    ensures LongForms(words) == words
  {
    hide SplitW;
    if words != [] && words[0] != "--" {
      assert IsRead(words, 0);
      if SplitW(words[0]).None? {
        forall i: nat | IsRead(words[1..], i) ensures IsRead(words, i + 1) && words[i + 1] == words[1..][i] {
          assert forall j :: 0 < j <= i + 1 ==> words[j] == words[1..][j - 1];
        }
        UnchangedIfNoneLeft(words[1..]);
      }
    }
  }

  lemma RewrittenHeadDiffers(words: seq<Word>)
    requires words != [] && words[0] != "--" && SplitW(words[0]).Some?
    requires SplitW(words[0]).value.runIn.Some? || |words| > 1
    ensures LongForms(words) != [] && LongForms(words)[0] != words[0]
  {
    hide SplitW;
    var h := SplitW(words[0]).value;
    if h.leading.Some? {
      LeadingIsSettled(words[0]);
    } else {
      LongFormIsNoShortGroup(if h.runIn.Some? then h.runIn.value else words[1]);
    }
  }

  lemma {:induction false} NoneLeftIfUnchanged(words: seq<Word>, i: nat)
    requires LongForms(words) == words && IsRead(words, i) && SplitW(words[i]).Some?
    ensures i == |words| - 1 && SplitW(words[i]).value.runIn.None?
  {
    hide SplitW;
    var w := words[0];
    assert w != "--";
    if SplitW(w).Some? && (SplitW(w).value.runIn.Some? || |words| > 1) {
      RewrittenHeadDiffers(words);
    } else if i > 0 {
      assert words[1..][i - 1] == words[i];
      assert LongForms(words)[1..] == LongForms(words[1..]);
      assert forall j :: 0 <= j <= i - 1 ==> words[1..][j] == words[j + 1];
      NoneLeftIfUnchanged(words[1..], i - 1);
    }
  }

  /** The rewriter leaves words as they are exactly when it finds nothing to rewrite in them. */
  lemma UnchangedIff(words: seq<Word>)
    ensures LongForms(words) == words <==> NoneLeft(words)
    ensures NoneLeft(LongForms(words))
  {
    if NoneLeft(words) {
      UnchangedIfNoneLeft(words);
    }
    LongFormsTwice(words);
    forall ws: seq<Word>, i: nat | LongForms(ws) == ws && IsRead(ws, i) && SplitW(ws[i]).Some?
      ensures i == |ws| - 1 && SplitW(ws[i]).value.runIn.None?
    {
      NoneLeftIfUnchanged(ws, i);
    }
  }

  // ---------------------------------------------------------------- what the -W option means

  /** A group of short options before a `W`: no second dash, and none of them takes an argument. */
  predicate IsLead(lead: Word) {
    (lead == "" || lead[0] != '-') && forall c <- lead :: c !in "bCfIsTWX"
  }

  function Dashed(lead: Word): seq<Word> {
    if lead == "" then [] else ["-" + lead]
  }

  function HalvesOf(lead: Word, runIn: Word): Halves {
    Halves(if lead == "" then None else Some("-" + lead), if runIn == "" then None else Some(runIn))
  }

  /** A token is a `-W` option exactly when it is a dash, such a group, a `W` and what is run into it. */
  lemma SplitWIff(w: Word, lead: Word, runIn: Word)
    ensures IsLead(lead) && w == "-" + lead + "W" + runIn <==>
      SplitW(w) == Some(HalvesOf(lead, runIn))
  {
    if IsLead(lead) && w == "-" + lead + "W" + runIn {
      WSplits(w, lead, runIn);
    }
    if SplitW(w) == Some(HalvesOf(lead, runIn)) {
      SplitIsW(w, lead, runIn);
    }
  }

  lemma WSplits(w: Word, lead: Word, runIn: Word)
    requires IsLead(lead) && w == "-" + lead + "W" + runIn
    ensures SplitW(w) == Some(HalvesOf(lead, runIn))
  {
    var at := 1 + |lead|;
    assert w[at] == 'W' && w[..at] == "-" + lead && w[at + 1..] == runIn;
    forall k | 1 <= k < at ensures w[k] == lead[k - 1] && !TakesArgument(w[k]) {
      ArgumentIff(w[k]);
    }
    assert FirstArgument(w, 1) == at;
    assert w[0] == '-' && w[1] != '-';
    assert w[..1] == "-" && w[..2][1] == w[1];
  }

  lemma SplitIsW(w: Word, lead: Word, runIn: Word)
    requires SplitW(w) == Some(HalvesOf(lead, runIn))
    ensures IsLead(lead) && w == "-" + lead + "W" + runIn
  {
    var i := FirstArgument(w, 1);
    assert w[..1] == "-" && w[..i] == "-" + lead;
    assert w == w[..i] + [w[i]] + w[i + 1..];
    assert forall k :: 0 <= k < |lead| ==> lead[k] == w[..i][k + 1] == w[k + 1];
    forall c <- lead ensures c !in "bCfIsTWX" {
      ArgumentIff(c);
    }
  }

  /** A word that the rewriter passes over, looking for a `-W`. */
  ghost predicate IsPassedOver(w: Word) {
    w != "--" && forall lead, runIn :: IsLead(lead) ==> w != "-" + lead + "W" + runIn
  }

  lemma PassedOverHasNoW(w: Word)
    ensures IsPassedOver(w) <==> w != "--" && SplitW(w) == None
  {
    hide SplitW;
    forall lead, runIn | IsLead(lead) && w == "-" + lead + "W" + runIn ensures SplitW(w).Some? {
      SplitWIff(w, lead, runIn);
    }
    if w != "--" && SplitW(w).Some? {
      HalvesAreW(w);
    }
  }

  lemma HalvesAreW(w: Word)
    requires SplitW(w).Some?
    ensures exists lead, runIn :: IsLead(lead) && w == "-" + lead + "W" + runIn
  {
    var i, h := FirstArgument(w, 1), SplitW(w).value;
    var lead, runIn := w[1..i], if h.runIn.Some? then h.runIn.value else "";
    assert w[..1] == "-" && w[..i] == "-" + lead;
    SplitIsW(w, lead, runIn);
  }

  /** Words without a `-W` stay as they are, and the rewriting goes on behind them. */
  lemma {:induction false} PassesOver(words: seq<Word>, k: nat)
    requires k <= |words| && forall j :: 0 <= j < k ==> IsPassedOver(words[j])
    ensures LongForms(words) == words[..k] + LongForms(words[k..])
  {
    hide SplitW, IsPassedOver, LongForms;
    if k > 0 {
      PassedOverHasNoW(words[0]);
      LongFormsAfterSettled(words[0], words[1..]);
      forall j | 0 <= j < k - 1 ensures IsPassedOver(words[1..][j]) {
        assert words[1..][j] == words[j + 1];
      }
      PassesOver(words[1..], k - 1);
      assert [words[0]] + words[1..] == words;
      assert words[1..][k - 1..] == words[k..] && [words[0]] + words[1..][..k - 1] == words[..k];
      Assoc([words[0]], words[1..][..k - 1], LongForms(words[k..]));
    } else {
      assert words[0..] == words;
    }
  }

  /**
   * The first `-W` option becomes its group, if any, and a long option made of what is run into
   * it or else of the next word; the rest is rewritten in turn. A last one with no argument
   * stays, and so does everything from a double dash on.
   */
  lemma WIsLongOption(words: seq<Word>, k: nat, lead: Word, runIn: Word)
    requires k < |words| && forall j :: 0 <= j < k ==> IsPassedOver(words[j])
    ensures words[k] == "--" ==> LongForms(words) == words
    ensures IsLead(lead) && words[k] == "-" + lead + "W" + runIn ==>
      LongForms(words) ==
        if runIn != "" then words[..k] + (Dashed(lead) + ["--" + runIn] + LongForms(words[k + 1..]))
        else if k + 1 < |words| then words[..k] + (Dashed(lead) + ["--" + words[k + 1]] + LongForms(words[k + 2..]))
        else words
  {
    hide SplitW, IsPassedOver, IsLead;
    PassesOver(words, k);
    var rest := words[k..];
    assert words == words[..k] + rest && rest[0] == words[k] && rest[1..] == words[k + 1..];
    if IsLead(lead) && words[k] == "-" + lead + "W" + runIn {
      SplitWIff(words[k], lead, runIn);
      assert ("-" + lead + "W" + runIn)[1 + |lead|] == 'W';
      assert words[k] != "--" by {
        assert SplitW("--") == None by { LongFormIsNoShortGroup(""); assert "--" + "" == "--"; }
      }
      assert Leading(SplitW(words[k]).value) == Dashed(lead);
      if k + 1 < |words| {
        assert rest[1] == words[k + 1] && rest[2..] == words[k + 2..];
      }
    }
  }

  /**
   * Without the subcommand neither rewriter changes a word. With it every word up to it stays,
   * and `-W` options are looked for behind it.
   */
  lemma RewritingIsAfterSubcommand(args: seq<Word>)
    ensures (forall after :: AfterSubcommand(args) != Some(after)) ==>
      WithoutBundle(args) == args && WithLongForms(args) == args
    ensures forall after :: AfterSubcommand(args) == Some(after) ==>
      after <= |args| && WithLongForms(args) == args[..after] + LongForms(args[after..])
  {
    hide AfterSubcommand, LongForms;
    var found := AfterSubcommand(args);
    if found.Some? {
      AfterIsWithin(args);
      assert found == Some(found.value);
    }
  }
}
