/** fborm.util: the comma-or-whitespace tokenizer, plus Python's `sep.join`,
    which the engine uses to build column lists and wire values. */
module Util {

  /** `\s` in a byte-string pattern compiled without re.UNICODE:
      space, tab, newline, vertical tab, form feed and carriage return. */
  predicate IsSpace(c: char) {
    c == ' ' || '\t' <= c <= '\r'
  }

  /** A character that the pattern `(?:\s*,\s*)+|\s+` can consume. */
  predicate IsSeparator(c: char) {
    c == ',' || IsSpace(c)
  }

  predicate NoSeparator(s: string) {
    forall k :: 0 <= k < |s| ==> !IsSeparator(s[k])
  }

  predicate AllSeparators(s: string) {
    forall k :: 0 <= k < |s| ==> IsSeparator(s[k])
  }

  /** Index of the first separator in s, or |s| when there is none. */
  function FirstSeparator(s: string): (i: nat)
    ensures i <= |s|
    ensures NoSeparator(s[..i])
    ensures i < |s| ==> IsSeparator(s[i])
  {
    if s == [] || IsSeparator(s[0]) then 0
    else
      var i := 1 + FirstSeparator(s[1..]);
      assert s[..i] == [s[0]] + s[1..][..i - 1];
      i
  }

  /** Length of the run of separators at the head of s. */
  function SeparatorRun(s: string): (n: nat)
    ensures n <= |s|
    ensures AllSeparators(s[..n])
    ensures n < |s| ==> !IsSeparator(s[n])
  {
    if s == [] || !IsSeparator(s[0]) then 0
    else
      var n := 1 + SeparatorRun(s[1..]);
      assert s[..n] == [s[0]] + s[1..][..n - 1];
      n
  }

  /** `re.split('(?:\s*,\s*)+|\s+', s)`. A maximal run of separator characters is
      consumed by exactly one match of the pattern (the first alternative when the
      run holds a comma, the second otherwise), so the pieces are the text between
      maximal runs, with an empty piece before a leading run and after a trailing one. */
  function Pieces(s: string): (r: seq<string>)
    ensures |r| >= 1
    decreases |s|
  {
    var i := FirstSeparator(s);
    if i == |s| then
      assert s[..i] == s;
      [s]
    else
      [s[..i]] + Pieces(s[i + SeparatorRun(s[i..])..])
  }

  /** `[x for x in pieces if x]` */
  function NonEmpty(ps: seq<string>): (r: seq<string>)
    ensures forall p :: p in r ==> p in ps && p != ""
  {
    if ps == [] then []
    else if ps[0] == "" then NonEmpty(ps[1..])
    else [ps[0]] + NonEmpty(ps[1..])
  }

  /** comma_or_space_split */
  function CommaOrSpaceSplit(s: string): (r: seq<string>)
    ensures forall t :: t in r ==> t != "" && NoSeparator(t)
  {
    PiecesHaveNoSeparator(s);
    NonEmpty(Pieces(s))
  }

  /** The characters of s that are not separators, in order. */
  function WithoutSeparators(s: string): string {
    if s == [] then []
    else if IsSeparator(s[0]) then WithoutSeparators(s[1..])
    else [s[0]] + WithoutSeparators(s[1..])
  }

  function Concat(ts: seq<string>): string {
    if ts == [] then [] else ts[0] + Concat(ts[1..])
  }

  /** Python's `sep.join(parts)`. */
  function Join(parts: seq<string>, sep: string): string {
    if |parts| == 0 then ""
    else if |parts| == 1 then parts[0]
    else parts[0] + sep + Join(parts[1..], sep)
  }

  lemma {:induction false} WithoutSeparatorsAppend(a: string, b: string)
    ensures WithoutSeparators(a + b) == WithoutSeparators(a) + WithoutSeparators(b)
  {
    if a != [] {
      assert (a + b)[0] == a[0];
      assert (a + b)[1..] == a[1..] + b;
      WithoutSeparatorsAppend(a[1..], b);
    } else {
      assert a + b == b;
    }
  }

  lemma {:induction false} WithoutSeparatorsOfPlain(a: string)
    requires NoSeparator(a)
    ensures WithoutSeparators(a) == a
  {
    if a != [] {
      WithoutSeparatorsOfPlain(a[1..]);
    }
  }

  lemma {:induction false} WithoutSeparatorsOfRun(a: string)
    requires AllSeparators(a)
    ensures WithoutSeparators(a) == []
  {
    if a != [] {
      WithoutSeparatorsOfRun(a[1..]);
    }
  }

  lemma {:induction false} ConcatCons(p: string, ps: seq<string>)
    ensures Concat([p] + ps) == p + Concat(ps)
  {
    assert ([p] + ps)[0] == p && ([p] + ps)[1..] == ps;
  }

  lemma {:induction false} ConcatNonEmpty(ps: seq<string>)
    ensures Concat(NonEmpty(ps)) == Concat(ps)
  {
    if ps != [] {
      var p, rest := ps[0], ps[1..];
      assert ps == [p] + rest;
      ConcatNonEmpty(rest);
      NonEmptyCons(p, rest);
      ConcatCons(p, rest);
      if p == "" {
        assert [] + NonEmpty(rest) == NonEmpty(rest);
        assert "" + Concat(rest) == Concat(rest);
      } else {
        ConcatCons(p, NonEmpty(rest));
      }
    }
  }

  /** No piece holds a separator. */
  lemma {:induction false} PiecesHaveNoSeparator(s: string)
    ensures forall p :: p in Pieces(s) ==> NoSeparator(p)
    decreases |s|
  {
    var i := FirstSeparator(s);
    if i == |s| {
      assert s[..i] == s;
      assert Pieces(s) == [s];
    } else {
      var n := SeparatorRun(s[i..]);
      PiecesStep(s, i, n);
      PiecesHaveNoSeparator(s[i + n..]);
    }
  }

  /** The recursive step of Pieces, spelled out. */
  lemma {:induction false} PiecesStep(s: string, i: nat, n: nat)
    requires i == FirstSeparator(s) && i < |s|
    requires n == SeparatorRun(s[i..])
    ensures Pieces(s) == [s[..i]] + Pieces(s[i + n..])
  {
  }

  lemma {:induction false} ThreeParts(s: string, i: nat, n: nat)
    requires i + n <= |s|
    ensures s == s[..i] + (s[i..][..n] + s[i + n..])
  {
  }

  lemma {:induction false} WithoutSeparatorsOfThree(head: string, run: string, rest: string)
    requires NoSeparator(head) && AllSeparators(run)
    ensures WithoutSeparators(head + (run + rest)) == head + WithoutSeparators(rest)
  {
    WithoutSeparatorsAppend(head, run + rest);
    WithoutSeparatorsAppend(run, rest);
    WithoutSeparatorsOfPlain(head);
    WithoutSeparatorsOfRun(run);
  }

  lemma {:induction false} ConcatPieces(s: string)
    ensures Concat(Pieces(s)) == WithoutSeparators(s)
    decreases |s|
  {
    var i := FirstSeparator(s);
    if i == |s| {
      assert s[..i] == s;
      WithoutSeparatorsOfPlain(s);
    } else {
      var n := SeparatorRun(s[i..]);
      PiecesStep(s, i, n);
      ConcatPieces(s[i + n..]);
      var ps := [s[..i]] + Pieces(s[i + n..]);
      assert ps[0] == s[..i] && ps[1..] == Pieces(s[i + n..]);
      ThreeParts(s, i, n);
      WithoutSeparatorsOfThree(s[..i], s[i..][..n], s[i + n..]);
    }
  }

  /** Concatenating the tokens gives the input with every comma and whitespace removed. */
  lemma {:induction false} SplitKeepsEveryOtherCharacter(s: string)
    ensures Concat(CommaOrSpaceSplit(s)) == WithoutSeparators(s)
  {
    ConcatNonEmpty(Pieces(s));
    ConcatPieces(s);
  }

  lemma {:induction false} FirstSeparatorAfterPlain(t: string, rest: string)
    requires NoSeparator(t)
    ensures FirstSeparator(t + rest) == |t| + FirstSeparator(rest)
  {
    if t != [] {
      assert (t + rest)[1..] == t[1..] + rest;
      FirstSeparatorAfterPlain(t[1..], rest);
    } else {
      assert t + rest == rest;
    }
  }

  lemma {:induction false} SeparatorRunOfRun(lead: string, rest: string)
    requires AllSeparators(lead)
    requires rest == [] || !IsSeparator(rest[0])
    ensures SeparatorRun(lead + rest) == |lead|
  {
    if lead != [] {
      assert (lead + rest)[1..] == lead[1..] + rest;
      SeparatorRunOfRun(lead[1..], rest);
    } else {
      assert lead + rest == rest;
    }
  }

  /** A run of separators before s contributes no token. */
  lemma {:induction false} SplitAfterRun(lead: string, s: string)
    requires AllSeparators(lead)
    requires s == [] || !IsSeparator(s[0])
    ensures CommaOrSpaceSplit(lead + s) == CommaOrSpaceSplit(s)
  {
    if lead != [] {
      var ls := lead + s;
      SeparatorRunOfRun(lead, s);
      assert FirstSeparator(ls) == 0;
      assert ls[0..] == ls;
      assert ls[|lead|..] == s;
      PiecesStep(ls, 0, |lead|);
      assert ls[..0] == "";
      assert Pieces(ls) == [""] + Pieces(s);
      assert NonEmpty(Pieces(ls)) == NonEmpty(Pieces(s));
    } else {
      assert lead + s == s;
    }
  }

  /** A text made only of separators has no tokens. */
  lemma {:induction false} SplitOfSeparators(lead: string)
    requires AllSeparators(lead)
    ensures CommaOrSpaceSplit(lead) == []
  {
    assert Pieces([]) == [[]];
    assert CommaOrSpaceSplit([]) == [];
    SplitAfterRun(lead, []);
    assert lead + [] == lead;
  }

  lemma {:induction false} NonEmptyCons(p: string, ps: seq<string>)
    ensures NonEmpty([p] + ps) == (if p == "" then [] else [p]) + NonEmpty(ps)
  {
    assert ([p] + ps)[0] == p && ([p] + ps)[1..] == ps;
  }

  /** A token at the end of the text. */
  lemma {:induction false} TokenAtEnd(t: string)
    requires t != "" && NoSeparator(t)
    ensures CommaOrSpaceSplit(t) == [t]
  {
    FirstSeparatorAfterPlain(t, []);
    assert t + [] == t;
    assert t[..|t|] == t;
    assert Pieces(t) == [t];
    NonEmptyCons(t, []);
    assert [t] + [] == [t];
    assert NonEmpty([]) == [];
    assert CommaOrSpaceSplit(t) == NonEmpty([t]);
  }

  lemma {:induction false} PiecesAfterToken(t: string, rest: string)
    requires NoSeparator(t)
    requires rest != [] && IsSeparator(rest[0])
    ensures Pieces(t + rest) == [t] + Pieces(rest[SeparatorRun(rest)..])
  {
    FirstSeparatorAfterPlain(t, rest);
    PiecesSplitAt(t, rest);
  }

  lemma {:induction false} PiecesSplitAt(head: string, rest: string)
    requires FirstSeparator(head + rest) == |head| && rest != []
    ensures Pieces(head + rest) == [head] + Pieces(rest[SeparatorRun(rest)..])
  {
    var n := SeparatorRun(rest);
    SlicesOfConcat(head, rest, n);
    PiecesStepTo(head + rest, |head|, n, head, rest[n..]);
  }

  lemma {:induction false} PiecesStepTo(s: string, i: nat, n: nat, h: string, t: string)
    requires i == FirstSeparator(s) && i < |s|
    requires n == SeparatorRun(s[i..]) && h == s[..i] && t == s[i + n..]
    ensures Pieces(s) == [h] + Pieces(t)
  {
    PiecesStep(s, i, n);
  }

  lemma {:induction false} SlicesOfConcat(head: string, rest: string, n: nat)
    requires n <= |rest|
    ensures (head + rest)[|head|..] == rest && (head + rest)[..|head|] == head
    ensures (head + rest)[|head| + n..] == rest[n..]
  {
  }

  lemma {:induction false} PiecesOfLeadingRun(rest: string)
    requires rest != [] && IsSeparator(rest[0])
    ensures Pieces(rest) == [""] + Pieces(rest[SeparatorRun(rest)..])
  {
    assert FirstSeparator(rest) == 0;
    assert rest[0..] == rest && rest[..0] == "";
    PiecesStep(rest, 0, SeparatorRun(rest));
  }

  /** A token followed by a separator. */
  lemma {:induction false} TokenBeforeSeparator(t: string, rest: string)
    requires t != "" && NoSeparator(t)
    requires rest != [] && IsSeparator(rest[0])
    ensures CommaOrSpaceSplit(t + rest) == [t] + CommaOrSpaceSplit(rest)
  {
    var after := Pieces(rest[SeparatorRun(rest)..]);
    PiecesAfterToken(t, rest);
    PiecesOfLeadingRun(rest);
    NonEmptyCons(t, after);
    NonEmptyCons("", after);
  }

  /** A token followed by a separator or the end. */
  lemma {:induction false} TokenThenRest(t: string, rest: string)
    requires t != "" && NoSeparator(t)
    requires rest == [] || IsSeparator(rest[0])
    ensures CommaOrSpaceSplit(t + rest) == [t] + CommaOrSpaceSplit(rest)
  {
    if rest == [] {
      TokenAtEnd(t);
      assert t + rest == t;
      assert Pieces(rest) == [""];
      NonEmptyCons("", []);
    } else {
      TokenBeforeSeparator(t, rest);
    }
  }

  /** One token, after any run of separators, followed by a separator or the end. */
  lemma {:induction false} SplitCons(lead: string, t: string, rest: string)
    requires AllSeparators(lead)
    requires t != "" && NoSeparator(t)
    requires rest == [] || IsSeparator(rest[0])
    ensures CommaOrSpaceSplit(lead + t + rest) == [t] + CommaOrSpaceSplit(rest)
  {
    TokenThenRest(t, rest);
    SplitAfterRun(lead, t + rest);
    assert lead + t + rest == lead + (t + rest);
  }

  /** Splitting undoes the comma-join of tokens that are non-empty and free of separators;
      in particular splitting is idempotent on text that is already normalised. */
  lemma {:induction false} SplitJoin(ts: seq<string>)
    requires forall i :: 0 <= i < |ts| ==> ts[i] != "" && NoSeparator(ts[i])
    ensures CommaOrSpaceSplit(Join(ts, ",")) == ts
  {
    if |ts| == 0 {
      SplitOfSeparators("");
    } else if |ts| == 1 {
      SplitCons("", ts[0], "");
      SplitOfSeparators("");
      assert "" + ts[0] + "" == ts[0];
    } else {
      var j := Join(ts[1..], ",");
      SplitJoin(ts[1..]);
      SplitCons("", ts[0], "," + j);
      assert "" + ts[0] + ("," + j) == Join(ts, ",");
      JoinStartsWithFirst(ts[1..]);
      SplitAfterComma(j);
    }
  }

  lemma {:induction false} JoinStartsWithFirst(ts: seq<string>)
    requires |ts| >= 1 && ts[0] != ""
    ensures Join(ts, ",") != "" && Join(ts, ",")[0] == ts[0][0]
  {
  }

  lemma {:induction false} SplitAfterComma(s: string)
    requires s != [] && !IsSeparator(s[0])
    ensures CommaOrSpaceSplit("," + s) == CommaOrSpaceSplit(s)
  {
    SplitAfterRun(",", s);
  }

  /** seps[0] + tokens[0] + seps[1] + ... + tokens[n-1] + seps[n] */
  function Interleave(seps: seq<string>, tokens: seq<string>): string
    requires |seps| == |tokens| + 1
  {
    if tokens == [] then seps[0]
    else seps[0] + tokens[0] + Interleave(seps[1..], tokens[1..])
  }

  /** Tokens separated by non-empty runs of separators (the outer runs may be empty)
      are exactly what the tokenizer returns. */
  lemma {:induction false} SplitInterleaved(seps: seq<string>, tokens: seq<string>)
    requires |seps| == |tokens| + 1
    requires forall i :: 0 <= i < |seps| ==> AllSeparators(seps[i])
    requires forall i :: 0 < i < |tokens| ==> seps[i] != ""
    requires forall i :: 0 <= i < |tokens| ==> tokens[i] != "" && NoSeparator(tokens[i])
    ensures CommaOrSpaceSplit(Interleave(seps, tokens)) == tokens
  {
    if tokens == [] {
      SplitOfSeparators(seps[0]);
    } else {
      var rest := Interleave(seps[1..], tokens[1..]);
      SplitInterleaved(seps[1..], tokens[1..]);
      if |tokens| > 1 {
        assert rest == seps[1] + tokens[1] + Interleave(seps[2..], tokens[2..]);
        assert rest[0] == seps[1][0];
      } else {
        assert rest == seps[1];
      }
      SplitCons(seps[0], tokens[0], rest);
    }
  }

  // The examples take the text as a parameter: with the literal itself inside
  // CommaOrSpaceSplit(...), the verifier tries to evaluate the tokenizer by unfolding.

  const MixedSeparators := [" ", ", ,, ", "   ", " , ,,   ", " ", ","]
  const MixedTokens := ["asdf", "a", "df", "sad", "f"]

  lemma {:induction false} MixedExampleLayout()
    ensures Interleave(MixedSeparators, MixedTokens) == " asdf, ,, a   df , ,,   sad f,"
  {
    var s5, t5 := [","], [];
    var s4, t4 := [" "] + s5, ["f"] + t5;
    var s3, t3 := [" , ,,   "] + s4, ["sad"] + t4;
    var s2, t2 := ["   "] + s3, ["df"] + t3;
    var s1, t1 := [", ,, "] + s2, ["a"] + t2;
    InterleaveCons(" ", "f", s5, t5);
    InterleaveCons(" , ,,   ", "sad", s4, t4);
    InterleaveCons("   ", "df", s3, t3);
    InterleaveCons(", ,, ", "a", s2, t2);
    InterleaveCons(" ", "asdf", s1, t1);
    assert [" "] + s1 == MixedSeparators && ["asdf"] + t1 == MixedTokens;
    MixedExamplePieces();
  }

  /** The example text, taken apart into its separators and tokens. */
  lemma MixedExamplePieces()
    ensures " asdf, ,, a   df , ,,   sad f,"
            == " " + ("asdf" + (", ,, " + ("a" + ("   " + ("df" + (" , ,,   " + ("sad" + (" " + ("f" + ",")))))))))
  {
  }

  /** Interleave taken apart at its first separator and token. */
  lemma InterleaveCons(sep: string, token: string, seps: seq<string>, tokens: seq<string>)
    requires |seps| == |tokens| + 1
    ensures Interleave([sep] + seps, [token] + tokens) == sep + (token + Interleave(seps, tokens))
  {
    assert ([sep] + seps)[1..] == seps && ([token] + tokens)[1..] == tokens;
  }

  /** fborm/util.py:15-16 */
  lemma {:induction false} SplitExampleMixed(s: string)
    requires s == " asdf, ,, a   df , ,,   sad f,"
    ensures CommaOrSpaceSplit(s) == ["asdf", "a", "df", "sad", "f"]
  {
    MixedExampleLayout();
    SplitInterleaved(MixedSeparators, MixedTokens);
  }

  /** fborm/util.py:17-18 */
  lemma {:induction false} SplitExampleCommas(s: string)
    requires s == ",asdf,"
    ensures CommaOrSpaceSplit(s) == ["asdf"]
  {
    SplitInterleaved([",", ","], ["asdf"]);
    assert Interleave([",", ","], ["asdf"]) == s;
  }

  /** fborm/util.py:19-20 */
  lemma {:induction false} SplitExampleSpaces(s: string)
    requires s == " asdf "
    ensures CommaOrSpaceSplit(s) == ["asdf"]
  {
    SplitInterleaved([" ", " "], ["asdf"]);
    assert Interleave([" ", " "], ["asdf"]) == s;
  }
}
