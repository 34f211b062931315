/** Splitting text at a separator and joining it again, as `str::split` and `join` do. */
module Words {
  import opened Basics

  /** How often `c` occurs in `s`. */
  function Count(s: string, c: char): nat {
    if s == "" then 0 else (if s[0] == c then 1 else 0) + Count(s[1..], c)
  }

  /** The pieces of a text, one character put before it. */
  function Prepended(c: char, pieces: seq<string>, sep: char): seq<string>
    requires pieces != []
  {
    if c == sep then [""] + pieces else [[c] + pieces[0]] + pieces[1..]
  }

  /** `str::split`: always at least one piece. */
  function Split(s: string, sep: char): (pieces: seq<string>)
    ensures |pieces| == Count(s, sep) + 1
  {
    if s == "" then [""]
    else Prepended(s[0], Split(s[1..], sep), sep)
  }

  function Join(pieces: seq<string>, sep: char): string {
    if pieces == [] then ""
    else if |pieces| == 1 then pieces[0]
    else pieces[0] + [sep] + Join(pieces[1..], sep)
  }

  datatype Cut = Cut(before: string, after: string)

  /** `str::split_once`. */
  function SplitOnce(s: string, sep: char): Option<Cut> {
    if s == "" then None
    else if s[0] == sep then Some(Cut("", s[1..]))
    else
      var rest := SplitOnce(s[1..], sep);
      if rest.None? then None else Some(Cut([s[0]] + rest.value.before, rest.value.after))
  }

  predicate Free(s: string, sep: char) {
    sep !in s
  }

  predicate AllFree(pieces: seq<string>, sep: char) {
    forall p <- pieces :: Free(p, sep)
  }

  lemma {:induction false} CountAppend(a: string, b: string, c: char)
    ensures Count(a + b, c) == Count(a, c) + Count(b, c)
  {
    if a == "" {
      assert a + b == b;
    } else {
      assert (a + b)[1..] == a[1..] + b;
      CountAppend(a[1..], b, c);
    }
  }

  lemma {:induction false} CountFree(s: string, c: char)
    ensures Count(s, c) == 0 <==> Free(s, c)
  {
    if s != "" {
      assert s == [s[0]] + s[1..];
      CountFree(s[1..], c);
    }
  }

  lemma JoinCons(p: string, pieces: seq<string>, sep: char)
    requires pieces != []
    ensures Join([p] + pieces, sep) == p + [sep] + Join(pieces, sep)
  {
    assert ([p] + pieces)[1..] == pieces;
  }

  lemma JoinPrepend(c: char, pieces: seq<string>, sep: char)
    requires pieces != []
    ensures Join([[c] + pieces[0]] + pieces[1..], sep) == [c] + Join(pieces, sep)
  {
    if |pieces| > 1 {
      JoinCons([c] + pieces[0], pieces[1..], sep);
      Assoc([c], pieces[0] + [sep], Join(pieces[1..], sep));
      Assoc([c], pieces[0], [sep]);
    } else {
      assert [[c] + pieces[0]] + pieces[1..] == [[c] + pieces[0]];
    }
  }

  /** No piece of a split holds the separator, and joining the pieces gives the text back. */
  lemma {:induction false} SplitPieces(s: string, sep: char)
    ensures AllFree(Split(s, sep), sep)
    ensures Join(Split(s, sep), sep) == s
  {
    hide Join;
    if s == "" {
      JoinOne("", sep);
    } else {
      var rest := Split(s[1..], sep);
      SplitPieces(s[1..], sep);
      assert s == [s[0]] + s[1..];
      if s[0] == sep {
        JoinCons("", rest, sep);
        assert "" + [sep] + s[1..] == s;
      } else {
        JoinPrepend(s[0], rest, sep);
        assert Free(rest[0], sep);
        assert forall p <- rest[1..] :: p in rest;
      }
    }
  }

  lemma JoinOne(p: string, sep: char)
    ensures Join([p], sep) == p
  {
  }

  /** The first piece of a text is what stands before its first separator. */
  lemma {:induction false} SplitAt(p: string, sep: char, r: string)
    requires Free(p, sep)
    ensures Split(p + [sep] + r, sep) == [p] + Split(r, sep)
    ensures SplitOnce(p + [sep] + r, sep) == Some(Cut(p, r))
  {
    var s := p + [sep] + r;
    if p == "" {
      assert s[1..] == r;
    } else {
      assert s[1..] == p[1..] + [sep] + r;
      SplitAt(p[1..], sep, r);
      assert [p[0]] + p[1..] == p;
      assert Split(s[1..], sep)[1..] == Split(r, sep);
    }
  }

  /** A text split on either side of a separator is split into the pieces of both. */
  lemma {:induction false} SplitBoth(a: string, sep: char, b: string)
    ensures Split(a + [sep] + b, sep) == Split(a, sep) + Split(b, sep)
  {
    hide Split;
    if a == "" {
      SplitNothing(sep);
      SplitCons(sep, b, sep);
      assert a + [sep] + b == [sep] + b;
    } else {
      SplitBoth(a[1..], sep, b);
      SplitCons(a[0], a[1..], sep);
      SplitCons(a[0], a[1..] + [sep] + b, sep);
      assert [a[0]] + a[1..] == a && [a[0]] + (a[1..] + [sep] + b) == a + [sep] + b;
      PrependedAppend(a[0], Split(a[1..], sep), Split(b, sep), sep);
    }
  }

  lemma SplitNothing(sep: char)
    ensures Split("", sep) == [""]
  {
  }

  lemma {:induction false} SplitCons(c: char, s: string, sep: char)
    ensures Split([c] + s, sep) == Prepended(c, Split(s, sep), sep)
  {
    assert ([c] + s)[1..] == s;
  }

  lemma PrependedAppend(c: char, a: seq<string>, b: seq<string>, sep: char)
    requires a != []
    ensures Prepended(c, a + b, sep) == Prepended(c, a, sep) + b
  {
    if c == sep {
      Assoc([""], a, b);
    } else {
      assert (a + b)[0] == a[0] && (a + b)[1..] == a[1..] + b;
      Assoc([[c] + a[0]], a[1..], b);
    }
  }

  lemma {:induction false} SplitFree(s: string, sep: char)
    requires Free(s, sep)
    ensures Split(s, sep) == [s]
  {
    if s != "" {
      SplitFree(s[1..], sep);
      assert [s[0]] + s[1..] == s;
    }
  }

  /** Splitting undoes joining when no piece holds the separator. */
  lemma {:induction false} SplitJoin(pieces: seq<string>, sep: char)
    requires pieces != [] && AllFree(pieces, sep)
    ensures Split(Join(pieces, sep), sep) == pieces
  {
    assert Free(pieces[0], sep);
    if |pieces| == 1 {
      SplitFree(pieces[0], sep);
    } else {
      SplitJoin(pieces[1..], sep);
      SplitAt(pieces[0], sep, Join(pieces[1..], sep));
    }
  }

  /** A joined text holds no character that neither a piece nor the separator is. */
  lemma {:induction false} JoinFree(pieces: seq<string>, sep: char, c: char)
    requires AllFree(pieces, c) && c != sep
    ensures Free(Join(pieces, sep), c)
  {
    if pieces != [] {
      assert Free(pieces[0], c);
      if |pieces| > 1 {
        JoinFree(pieces[1..], sep, c);
      }
    }
  }
}
