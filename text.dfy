/**
 * The string operations the server and the client perform with JavaScript's String
 * and RegExp methods, restricted to what the game uses: character-class filters,
 * prefixes, ASCII upper-casing, and splitting or globally replacing a literal pattern.
 */
module Text {

  predicate IsLetter(c: char) { 'a' <= c <= 'z' || 'A' <= c <= 'Z' }

  predicate IsDigit(c: char) { '0' <= c <= '9' }

  /** The class [0-9a-z] under the i flag. */
  predicate IsAlnum(c: char) { IsLetter(c) || IsDigit(c) }

  /** The class [0-9a-z_ ] under the i flag. */
  predicate IsWordChar(c: char) { IsAlnum(c) || c == '_' || c == ' ' }

  /** The class [0-9a-z] without the i flag: the digits of Number.prototype.toString(36). */
  predicate IsBase36(c: char) { 'a' <= c <= 'z' || IsDigit(c) }

  /** s.replace(/[^class]/g, ''): the characters of s that the class accepts, in order. */
  function Keep(s: string, keep: char -> bool): (r: string)
    ensures |r| <= |s|
    ensures forall i :: 0 <= i < |r| ==> keep(r[i])
    ensures forall c :: keep(c) ==> multiset(r)[c] == multiset(s)[c]
    ensures (forall i :: 0 <= i < |s| ==> keep(s[i])) ==> r == s
  {
    if s == [] then []
    else
      assert s == [s[0]] + s[1..];
      if keep(s[0]) then [s[0]] + Keep(s[1..], keep) else Keep(s[1..], keep)
  }

  /** Filtering a non-empty string: its first character if the class accepts it, then the rest filtered. */
  lemma KeepCons(c: char, s: string, keep: char -> bool)
    ensures Keep([c] + s, keep) == (if keep(c) then [c] else []) + Keep(s, keep)
  {
    assert ([c] + s)[0] == c && ([c] + s)[1..] == s;
  }

  lemma ConsParts(a: string, b: string)
    requires a != []
    ensures a == [a[0]] + a[1..] && a + b == [a[0]] + (a[1..] + b)
  {
  }

  lemma AppendAssoc(x: string, y: string, z: string)
    ensures x + (y + z) == (x + y) + z
  {
  }

  /** Filtering a concatenation filters each part and keeps them in order. */
  lemma {:induction false} KeepAppend(a: string, b: string, keep: char -> bool)
    ensures Keep(a + b, keep) == Keep(a, keep) + Keep(b, keep)
    decreases |a|
  {
    if a == [] {
      assert a + b == b;
    } else {
      var c, t := a[0], a[1..];
      ConsParts(a, b);
      KeepAppend(t, b, keep);
      KeepCons(c, t + b, keep);
      KeepCons(c, t, keep);
      AppendAssoc(if keep(c) then [c] else [], Keep(t, keep), Keep(b, keep));
    }
  }

  /** One character is kept exactly when the class accepts it. */
  lemma KeepOne(c: char, keep: char -> bool)
    ensures Keep([c], keep) == if keep(c) then [c] else []
  {
    KeepCons(c, [], keep);
    assert [c] + [] == [c];
  }

  /** s.substr(0, n) and s.substring(0, n) for n >= 0: the first n characters. */
  function Take(s: string, n: nat): (r: string)
    ensures |r| <= n && r <= s
    ensures |s| <= n ==> r == s
    ensures n <= |s| ==> |r| == n
  {
    if |s| <= n then s else s[..n]
  }

  /** Once x holds n characters, what follows x does not reach the first n. */
  lemma TakeLong(x: string, y: string, n: nat)
    requires |x| >= n
    ensures Take(x + y, n) == Take(x, n)
  {
    assert (x + y)[..n] == x[..n];
  }

  /** The sanitiser's cleaning of every string field: word characters only, at most 20. */
  function CleanText(s: string): (r: string)
    ensures |r| <= 20
    ensures forall i :: 0 <= i < |r| ==> IsWordChar(r[i])
  {
    Take(Keep(s, IsWordChar), 20)
  }

  /** The verifier's cleaning of a secret or a room code: letters and digits only, at most 20. */
  function AlnumText(s: string): (r: string)
    ensures |r| <= 20
    ensures forall i :: 0 <= i < |r| ==> IsAlnum(r[i])
  {
    Take(Keep(s, IsAlnum), 20)
  }

  /** Cleaning keeps the word characters in input order: those of a, then those of b, cut at 20. */
  lemma CleanTextAppend(a: string, b: string)
    ensures CleanText(a + b) == Take(Keep(a, IsWordChar) + Keep(b, IsWordChar), 20)
  {
    KeepAppend(a, b, IsWordChar);
  }

  /** Once a prefix holds 20 word characters, nothing after it reaches the cleaned text. */
  lemma CleanTextFirstTwenty(a: string, b: string)
    requires |Keep(a, IsWordChar)| >= 20
    ensures CleanText(a + b) == CleanText(a)
  {
    KeepAppend(a, b, IsWordChar);
    TakeLong(Keep(a, IsWordChar), Keep(b, IsWordChar), 20);
  }

  /** The verifier's cleaning keeps letters and digits in input order, cut at 20. */
  lemma AlnumTextAppend(a: string, b: string)
    ensures AlnumText(a + b) == Take(Keep(a, IsAlnum) + Keep(b, IsAlnum), 20)
  {
    KeepAppend(a, b, IsAlnum);
  }

  /** Once a prefix holds 20 letters and digits, nothing after it reaches the cleaned text. */
  lemma AlnumTextFirstTwenty(a: string, b: string)
    requires |Keep(a, IsAlnum)| >= 20
    ensures AlnumText(a + b) == AlnumText(a)
  {
    KeepAppend(a, b, IsAlnum);
    TakeLong(Keep(a, IsAlnum), Keep(b, IsAlnum), 20);
  }

  /** Cleaning an already clean string changes nothing, so data sanitised twice is sanitised once. */
  lemma CleanTextIdempotent(s: string)
    ensures CleanText(CleanText(s)) == CleanText(s)
  {
  }

  function UpperChar(c: char): char
  {
    if 'a' <= c <= 'z' then (c as int - 32) as char else c
  }

  /** s.toUpperCase() on ASCII text. */
  function ToUpper(s: string): (r: string)
    ensures |r| == |s|
    ensures forall i :: 0 <= i < |s| ==> r[i] == UpperChar(s[i])
  {
    seq(|s|, i requires 0 <= i < |s| => UpperChar(s[i]))
  }

  /** Upper-casing keeps a cleaned string clean and leaves no lower-case letter behind. */
  lemma ToUpperKeepsWordChars(s: string)
    requires forall i :: 0 <= i < |s| ==> IsWordChar(s[i])
    ensures forall i :: 0 <= i < |s| ==> IsWordChar(ToUpper(s)[i]) && !('a' <= ToUpper(s)[i] <= 'z')
  {
  }

  /** The literal pattern p occurs in s at position i. */
  predicate OccursAt(s: string, i: int, p: string)
  {
    0 <= i && i + |p| <= |s| && s[i..i + |p|] == p
  }

  /**
   * s.replace(/p/g, w) for a pattern without special characters: the string is scanned
   * from the left and each occurrence found is replaced; the scan resumes after it.
   */
  function ReplaceAll(s: string, p: string, w: string): string
    requires p != []
    decreases |s|
  {
    if |s| < |p| then s
    else if s[..|p|] == p then w + ReplaceAll(s[|p|..], p, w)
    else [s[0]] + ReplaceAll(s[1..], p, w)
  }

  /** s.split(p) for a non-empty literal separator. */
  function SplitOn(s: string, p: string): (parts: seq<string>)
    requires p != []
    ensures |parts| >= 1
    decreases |s|
  {
    if |s| < |p| then [s]
    else if s[..|p|] == p then [[]] + SplitOn(s[|p|..], p)
    else
      var rest := SplitOn(s[1..], p);
      [[s[0]] + rest[0]] + rest[1..]
  }

  /** parts.join(sep) */
  function Join(parts: seq<string>, sep: string): string
  {
    if parts == [] then []
    else if |parts| == 1 then parts[0]
    else parts[0] + sep + Join(parts[1..], sep)
  }

  lemma JoinConsHead(c: char, parts: seq<string>, sep: string)
    requires |parts| >= 1
    ensures Join([[c] + parts[0]] + parts[1..], sep) == [c] + Join(parts, sep)
  {
    var q := [[c] + parts[0]] + parts[1..];
    assert q[1..] == parts[1..];
  }

  lemma JoinEmptyHead(parts: seq<string>, sep: string)
    requires |parts| >= 1
    ensures Join([[]] + parts, sep) == sep + Join(parts, sep)
  {
    assert ([[]] + parts)[1..] == parts;
  }

  /** Joining the pieces of s.split(p) with p gives s back. */
  lemma {:induction false} SplitJoinRoundTrip(s: string, p: string)
    requires p != []
    ensures Join(SplitOn(s, p), p) == s
    decreases |s|
  {
    if |s| < |p| {
    } else if s[..|p|] == p {
      SplitJoinRoundTrip(s[|p|..], p);
      JoinEmptyHead(SplitOn(s[|p|..], p), p);
      assert s == s[..|p|] + s[|p|..];
    } else {
      SplitJoinRoundTrip(s[1..], p);
      JoinConsHead(s[0], SplitOn(s[1..], p), p);
      assert s == [s[0]] + s[1..];
    }
  }

  /** s.replace(/p/g, w) equals s.split(p).join(w): every occurrence the split finds is replaced. */
  lemma {:induction false} ReplaceAllIsSplitJoin(s: string, p: string, w: string)
    requires p != []
    ensures ReplaceAll(s, p, w) == Join(SplitOn(s, p), w)
    decreases |s|
  {
    if |s| < |p| {
    } else if s[..|p|] == p {
      ReplaceAllIsSplitJoin(s[|p|..], p, w);
      JoinEmptyHead(SplitOn(s[|p|..], p), w);
    } else {
      ReplaceAllIsSplitJoin(s[1..], p, w);
      JoinConsHead(s[0], SplitOn(s[1..], p), w);
    }
  }

  /** No piece of s.split(p) contains p: the split finds every occurrence. */
  lemma {:induction false} SplitPiecesAvoidPattern(s: string, p: string)
    requires p != []
    ensures forall k, i :: 0 <= k < |SplitOn(s, p)| ==> !OccursAt(SplitOn(s, p)[k], i, p)
    decreases |s|
  {
    var parts := SplitOn(s, p);
    if |s| < |p| {
    } else if s[..|p|] == p {
      SplitPiecesAvoidPattern(s[|p|..], p);
      var rest := SplitOn(s[|p|..], p);
      assert parts == [[]] + rest;
      forall k, i | 0 <= k < |parts| ensures !OccursAt(parts[k], i, p) {
        if k > 0 { assert parts[k] == rest[k - 1]; }
      }
    } else {
      SplitPiecesAvoidPattern(s[1..], p);
      SplitJoinRoundTrip(s[1..], p);
      var rest := SplitOn(s[1..], p);
      var q := [s[0]] + rest[0];
      assert parts == [q] + rest[1..];
      assert rest[0] <= Join(rest, p);
      assert q <= s;
      forall k, i | 0 <= k < |parts| ensures !OccursAt(parts[k], i, p) {
        if k > 0 {
          assert parts[k] == rest[k];
        } else if OccursAt(q, i, p) {
          if i == 0 {
            assert false;
          } else {
            assert q[i..i + |p|] == rest[0][i - 1..i - 1 + |p|];
            assert OccursAt(rest[0], i - 1, p);
            assert false;
          }
        }
      }
    }
  }

  /** p occurs in s one position later than in s without its first character. */
  lemma OccursAfterHead(s: string, i: nat, p: string)
    requires s != []
    ensures OccursAt(s, i + 1, p) <==> OccursAt(s[1..], i, p)
  {
    if i + 1 + |p| <= |s| {
      assert s[i + 1..i + 1 + |p|] == s[1..][i..i + |p|];
    }
  }

  /** A prefix at none of whose positions p occurs passes through s.replace(/p/g, w) unchanged. */
  lemma {:induction false} ReplaceAllSkips(a: string, y: string, p: string, w: string)
    requires p != []
    requires forall i :: 0 <= i < |a| ==> !OccursAt(a + y, i, p)
    ensures ReplaceAll(a + y, p, w) == a + ReplaceAll(y, p, w)
    decreases |a|
  {
    var s := a + y;
    if a == [] {
      assert s == y;
    } else {
      assert !OccursAt(s, 0, p);
      assert s[1..] == a[1..] + y;
      forall i | 0 <= i < |a| - 1 ensures !OccursAt(a[1..] + y, i, p) {
        OccursAfterHead(s, i, p);
      }
      ReplaceAllSkips(a[1..], y, p, w);
      assert [a[0]] + a[1..] == a;
    }
  }
}
