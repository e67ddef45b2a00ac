/** Python's string primitives used by the handler: str.strip(), str.split(),
  * str.split(maxsplit=n), str.startswith and str.join; and str.split(sep), which
  * the handler does not call, as the inverse that the join's round trip is stated with. */
module Text {
  import opened Seqs

  /** The characters Python's str.isspace accepts; str.strip() and str.split()
    * without arguments cut on exactly these. */
  predicate IsSpace(c: char): (b: bool)
    ensures c == ' ' || c == '\t' || c == '\n' || c == '\r' ==> b
    ensures 'a' <= c <= 'z' || 'A' <= c <= 'Z' || '0' <= c <= '9' || c == '/' || c == '_' ==> !b
    // Cyrillic and its supplement: no letter a user writes a word in is whitespace
    ensures '\U{0400}' <= c <= '\U{052F}' ==> !b
  {
    var n := c as int;
    (0x09 <= n <= 0x0D) || (0x1C <= n <= 0x20) || n == 0x85 || n == 0xA0 || n == 0x1680
    || (0x2000 <= n <= 0x200A) || n == 0x2028 || n == 0x2029 || n == 0x202F
    || n == 0x205F || n == 0x3000
  }

  predicate NoSpace(s: string) {
    forall i :: 0 <= i < |s| ==> !IsSpace(s[i])
  }

  /** s.startswith(prefix) */
  predicate StartsWith(s: string, prefix: string): (b: bool)
    ensures b <==> |prefix| <= |s| && forall i :: 0 <= i < |prefix| ==> s[i] == prefix[i]
  {
    |prefix| <= |s| && s[..|prefix|] == prefix
  }

  lemma PrefixOf(p: string, s: string)
    ensures StartsWith(p + s, p)
  {
    assert (p + s)[..|p|] == p;
  }

  /** s.lstrip(): drops the leading whitespace and nothing else. */
  function TrimStart(s: string): (r: string)
    ensures |r| <= |s|
    ensures r == [] || !IsSpace(r[0])
  {
    if s != [] && IsSpace(s[0]) then
      TrimStart(s[1..])
    else s
  }

  /** s.lstrip() is the suffix of s left after a run of whitespace. */
  lemma {:induction false} TrimStartSuffix(s: string)
    ensures TrimStart(s) == s[|s| - |TrimStart(s)|..]
    ensures forall i :: 0 <= i < |s| - |TrimStart(s)| ==> IsSpace(s[i])
  {
    if s != [] && IsSpace(s[0]) {
      TrimStartSuffix(s[1..]);
      var k := |s| - |TrimStart(s)|;
      assert s[1..][k - 1..] == s[k..];
      forall i | 1 <= i < k ensures IsSpace(s[i]) {
        assert s[1..][i - 1] == s[i];
      }
    }
  }

  /** s.rstrip(): drops the trailing whitespace and nothing else. */
  function TrimEnd(s: string): (r: string)
    ensures |r| <= |s| && r == s[..|r|]
    ensures r == [] || !IsSpace(r[|r| - 1])
    ensures forall i :: |r| <= i < |s| ==> IsSpace(s[i])
  {
    if s != [] && IsSpace(s[|s| - 1]) then TrimEnd(s[..|s| - 1]) else s
  }

  /** s.strip() */
  function Strip(s: string): (r: string)
    ensures |r| <= |s|
    ensures r == [] || (!IsSpace(r[0]) && !IsSpace(r[|r| - 1]))
  {
    TrimEnd(TrimStart(s))
  }

  /** Text that starts and ends with a non-space character is its own strip. */
  lemma StripUnchanged(s: string)
    requires s == [] || (!IsSpace(s[0]) && !IsSpace(s[|s| - 1]))
    ensures Strip(s) == s
  {
    assert TrimStart(s) == s;
  }

  /** Stripping twice is stripping once. */
  lemma StripIdempotent(s: string)
    ensures Strip(Strip(s)) == Strip(s)
  {
    StripUnchanged(Strip(s));
  }

  /** Strip(s) is empty exactly when s is all whitespace. */
  lemma StripEmptyIff(s: string)
    ensures Strip(s) == [] <==> forall i :: 0 <= i < |s| ==> IsSpace(s[i])
  {
    TrimStartSuffix(s);
    var t := TrimStart(s);
    if t != [] {
      assert t[0] == s[|s| - |t|];
    }
  }

  /** The length of the longest whitespace-free prefix of s. */
  function WordLength(s: string): (n: nat)
    ensures n <= |s| && NoSpace(s[..n])
    ensures n == |s| || IsSpace(s[n])
  {
    if s == [] || IsSpace(s[0]) then 0
    else
      1 + WordLength(s[1..])
  }

  lemma {:induction false} WordLengthOf(w: string, rest: string)
    requires NoSpace(w)
    requires rest == [] || IsSpace(rest[0])
    ensures WordLength(w + rest) == |w|
  {
    if w != [] {
      assert (w + rest)[1..] == w[1..] + rest;
      WordLengthOf(w[1..], rest);
    }
  }

  /** s.split(): the maximal whitespace-free runs of s, in order. */
  function Words(s: string): seq<string>
    decreases |s|
  {
    var t := TrimStart(s);
    if t == [] then []
    else
      var n := WordLength(t);
      [t[..n]] + Words(t[n..])
  }

  /** s.split() is empty exactly when s holds nothing but whitespace. */
  lemma {:induction false} WordsEmptyIff(s: string)
    ensures Words(s) == [] <==> forall i :: 0 <= i < |s| ==> IsSpace(s[i])
  {
    TrimStartSuffix(s);
    var t := TrimStart(s);
    if t != [] {
      assert t[0] == s[|s| - |t|];
    }
  }

  /** Every piece of s.split() is a non-empty run of non-whitespace. */
  lemma {:induction false} WordsArePieces(s: string)
    ensures forall i :: 0 <= i < |Words(s)| ==> Words(s)[i] != [] && NoSpace(Words(s)[i])
    decreases |s|
  {
    var t := TrimStart(s);
    if t != [] {
      var n := WordLength(t);
      WordsArePieces(t[n..]);
      var ws := Words(s);
      assert ws == [t[..n]] + Words(t[n..]);
      forall i | 0 <= i < |ws| ensures ws[i] != [] && NoSpace(ws[i]) {
        if i > 0 {
          assert ws[i] == Words(t[n..])[i - 1];
        }
      }
    }
  }

  /** s.split(maxsplit=n): at most n words are cut off the front; what is left
    * after the whitespace that follows them is kept as it stands. */
  function SplitMax(s: string, maxsplit: nat): seq<string>
    decreases |s|
  {
    var t := TrimStart(s);
    if t == [] then []
    else if maxsplit == 0 then [t]
    else
      var n := WordLength(t);
      [t[..n]] + SplitMax(t[n..], maxsplit - 1)
  }

  /** A piece of a split: non-empty and not starting with whitespace. */
  predicate Piece(p: string) {
    p != [] && !IsSpace(p[0])
  }

  /** s.split(maxsplit=n) yields at most n + 1 pieces, none empty and none starting
    * with whitespace; the first n of them hold no whitespace at all. */
  lemma {:induction false} SplitMaxArePieces(s: string, maxsplit: nat)
    ensures |SplitMax(s, maxsplit)| <= maxsplit + 1
    ensures forall i :: 0 <= i < |SplitMax(s, maxsplit)| ==> Piece(SplitMax(s, maxsplit)[i])
    ensures forall i :: 0 <= i < |SplitMax(s, maxsplit)| && i < maxsplit ==>
      NoSpace(SplitMax(s, maxsplit)[i])
    decreases |s|
  {
    var t := TrimStart(s);
    if t != [] && maxsplit > 0 {
      var n := WordLength(t);
      SplitMaxArePieces(t[n..], maxsplit - 1);
      PiecesCons(t[..n], SplitMax(t[n..], maxsplit - 1), maxsplit);
    }
  }

  lemma PiecesCons(w: string, qs: seq<string>, maxsplit: nat)
    requires Piece(w) && NoSpace(w) && maxsplit > 0 && |qs| <= maxsplit
    requires forall i :: 0 <= i < |qs| ==> Piece(qs[i])
    requires forall i :: 0 <= i < |qs| && i < maxsplit - 1 ==> NoSpace(qs[i])
    ensures forall i :: 0 <= i < |[w] + qs| ==> Piece(([w] + qs)[i])
    ensures forall i :: 0 <= i < |[w] + qs| && i < maxsplit ==> NoSpace(([w] + qs)[i])
  {
    forall i | 0 < i < |[w] + qs| ensures ([w] + qs)[i] == qs[i - 1] {
    }
  }

  /** sep.join(parts) */
  function Join(parts: seq<string>, sep: string): string {
    if |parts| == 0 then []
    else if |parts| == 1 then parts[0]
    else parts[0] + sep + Join(parts[1..], sep)
  }

  /** s.split(sep) for a one-character separator: never empty. */
  function SplitOn(s: string, sep: char): (ps: seq<string>)
    ensures |ps| >= 1
    ensures forall i :: 0 <= i < |ps| ==> sep !in ps[i]
    decreases |s|
  {
    if sep in s then
      var i := IndexOf(s, sep);
      [s[..i]] + SplitOn(s[i + 1..], sep)
    else [s]
  }

  /** Leading whitespace does not change s.split(). */
  lemma WordsSkipSpace(s: string)
    ensures Words(" " + s) == Words(s)
  {
    assert (" " + s)[1..] == s;
  }

  /** s.split() cuts a leading word off at the first whitespace. */
  lemma WordsStep(w: string, rest: string)
    requires w != [] && NoSpace(w)
    requires rest == [] || IsSpace(rest[0])
    ensures Words(w + rest) == [w] + Words(rest)
  {
    var s := w + rest;
    WordLengthOf(w, rest);
    assert TrimStart(s) == s;
    assert s[..|w|] == w && s[|w|..] == rest;
  }

  /** Leading whitespace does not change s.split(maxsplit=n). */
  lemma SplitMaxSkipSpace(s: string, maxsplit: nat)
    ensures SplitMax(" " + s, maxsplit) == SplitMax(s, maxsplit)
  {
    assert (" " + s)[1..] == s;
  }

  /** s.split(maxsplit=n) with n > 0 cuts a leading word off at the first whitespace. */
  lemma SplitMaxStep(w: string, rest: string, maxsplit: nat)
    requires w != [] && NoSpace(w) && maxsplit > 0
    requires rest == [] || IsSpace(rest[0])
    ensures SplitMax(w + rest, maxsplit) == [w] + SplitMax(rest, maxsplit - 1)
  {
    var s := w + rest;
    WordLengthOf(w, rest);
    assert TrimStart(s) == s;
    assert s[..|w|] == w && s[|w|..] == rest;
  }

  lemma JoinStep(parts: seq<string>, sep: string)
    requires |parts| > 1
    ensures Join(parts, sep) == parts[0] + (sep + Join(parts[1..], sep))
  {
  }

  /** Words separated by single spaces split back into the same words. */
  lemma {:induction false} WordsOfJoin(ws: seq<string>)
    requires forall i :: 0 <= i < |ws| ==> ws[i] != [] && NoSpace(ws[i])
    ensures Words(Join(ws, " ")) == ws
  {
    if |ws| == 1 {
      WordsStep(ws[0], []);
      assert ws[0] + [] == ws[0];
    } else if |ws| > 1 {
      var rest := Join(ws[1..], " ");
      var tail := " " + rest;
      JoinStep(ws, " ");
      WordsStep(ws[0], tail);
      WordsSkipSpace(rest);
      WordsOfJoin(ws[1..]);
      HeadTail(ws);
    }
  }

  /** Segments free of the separator are recovered by splitting their join. */
  lemma {:induction false} SplitOnJoin(parts: seq<string>, sep: char)
    requires |parts| >= 1
    requires forall i :: 0 <= i < |parts| ==> sep !in parts[i]
    ensures SplitOn(Join(parts, [sep]), sep) == parts
  {
    if |parts| > 1 {
      var rest := Join(parts[1..], [sep]);
      JoinStep(parts, [sep]);
      FirstSeparator(parts[0], sep, rest);
      SplitOnJoin(parts[1..], sep);
      HeadTail(parts);
    }
  }

  /** Splitting at the first separator of a + [sep] + rest, when a has none. */
  lemma FirstSeparator(a: string, sep: char, rest: string)
    requires sep !in a
    ensures SplitOn(a + ([sep] + rest), sep) == [a] + SplitOn(rest, sep)
  {
    var s := a + ([sep] + rest);
    assert forall k :: 0 <= k < |a| ==> s[k] == a[k];
    IndexOfAt(s, sep, |a|);
    assert s[..|a|] == a;
    assert s[|a| + 1..] == rest;
  }

  /** The parse of a well-formed three-part command line. */
  lemma SplitThree(a: string, b: string, c: string)
    requires a != [] && NoSpace(a) && b != [] && NoSpace(b)
    requires c != [] && !IsSpace(c[0])
    ensures SplitMax(a + " " + b + " " + c, 2) == [a, b, c]
  {
    var tail := " " + (b + (" " + c));
    Regroup(a, b, c);
    SplitMaxStep(a, tail, 2);
    SplitMaxSkipSpace(b + (" " + c), 1);
    SplitMaxStep(b, " " + c, 1);
    SplitMaxSkipSpace(c, 0);
    SplitMaxWhole(c);
    Triple(a, b, c);
  }

  lemma SplitMaxWhole(c: string)
    requires c != [] && !IsSpace(c[0])
    ensures SplitMax(c, 0) == [c]
  {
    assert TrimStart(c) == c;
  }

  lemma Triple(a: string, b: string, c: string)
    ensures [a] + ([b] + [c]) == [a, b, c]
  {
  }

  /** The parse of a well-formed two-part command line. */
  lemma SplitTwo(a: string, b: string)
    requires a != [] && NoSpace(a) && b != [] && NoSpace(b)
    ensures SplitMax(a + " " + b, 2) == [a, b]
  {
    Regroup2(a, b);
    SplitMaxStep(a, " " + b, 2);
    SplitMaxSkipSpace(b, 1);
    AppendEmpty(b);
    SplitMaxStep(b, [], 1);
    assert SplitMax([], 0) == [];
    Pair(a, b);
  }

  lemma Regroup2(a: string, b: string)
    ensures a + " " + b == a + (" " + b)
  {
  }

  lemma AppendEmpty(s: string)
    ensures s + [] == s
  {
  }

  lemma Pair(a: string, b: string)
    ensures [a] + ([b] + []) == [a, b]
  {
  }

  lemma Regroup(a: string, b: string, c: string)
    ensures a + " " + b + " " + c == a + (" " + (b + (" " + c)))
  {
  }
}
