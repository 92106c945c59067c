/** String helpers shared by the components: trimming, case folding, first-non-blank and joins. */
module Text {
  datatype Option<+T> = None | Some(value: T)

  /** The code points that `strings.TrimSpace` removes. */
  predicate IsSpace(c: char) {
    || c == ' ' || '\t' <= c <= '\r'
    || c == '\U{0085}' || c == '\U{00A0}' || c == '\U{1680}'
    || '\U{2000}' <= c <= '\U{200A}'
    || c == '\U{2028}' || c == '\U{2029}' || c == '\U{202F}' || c == '\U{205F}' || c == '\U{3000}'
  }

  function TrimLeft(s: string): string {
    if s != [] && IsSpace(s[0]) then TrimLeft(s[1..]) else s
  }

  function TrimRight(s: string): string {
    if s != [] && IsSpace(s[|s| - 1]) then TrimRight(s[..|s| - 1]) else s
  }

  function TrimSpace(s: string): string {
    TrimRight(TrimLeft(s))
  }

  /** No blank at either end: exactly the fixed points of `TrimSpace`. */
  predicate Trimmed(s: string) {
    s == [] || (!IsSpace(s[0]) && !IsSpace(s[|s| - 1]))
  }

  predicate Blank(s: string) {
    TrimSpace(s) == ""
  }

  lemma {:induction false} TrimLeftStartsClean(s: string)
    ensures TrimLeft(s) == [] || !IsSpace(TrimLeft(s)[0])
    decreases |s|
  {
    if s != [] && IsSpace(s[0]) { TrimLeftStartsClean(s[1..]); }
  }

  lemma {:induction false} TrimRightEndsClean(s: string)
    ensures TrimRight(s) == [] || !IsSpace(TrimRight(s)[|TrimRight(s)| - 1])
    ensures TrimRight(s) <= s
    decreases |s|
  {
    if s != [] && IsSpace(s[|s| - 1]) { TrimRightEndsClean(s[..|s| - 1]); }
  }

  /** Trimming yields a clean string, and leaves a string alone exactly when it is already clean. */
  lemma TrimSpaceFixedPoints(s: string)
    ensures Trimmed(TrimSpace(s))
    ensures TrimSpace(s) == s <==> Trimmed(s)
    ensures TrimSpace(TrimSpace(s)) == TrimSpace(s)
  {
    TrimLeftStartsClean(s);
    TrimRightEndsClean(TrimLeft(s));
    var t := TrimSpace(s);
    assert t != [] ==> t[0] == TrimLeft(s)[0];
    assert Trimmed(t);
    assert TrimLeft(t) == t && TrimRight(t) == t;
  }

  /** The first non-blank value, returned as it is; empty when all are blank. */
  function First(values: seq<string>): string {
    if values == [] then "" else if !Blank(values[0]) then values[0] else First(values[1..])
  }

  lemma FirstOfTwo(a: string, b: string)
    ensures First([a, b]) == if !Blank(a) then a else if !Blank(b) then b else ""
  {
    var both := [a, b];
    assert both[1..] == [b] && [b][1..] == [];
    assert First([b]) == if !Blank(b) then b else First([]);
    assert First(both) == if !Blank(a) then a else First(both[1..]);
  }

  /** The first non-blank value, trimmed; empty when all are blank. */
  function FirstNonEmpty(values: seq<string>): string {
    TrimSpace(First(values))
  }

  /** Upper-casing; the two listed letters are the only ones outside ASCII whose upper case is an ASCII letter. */
  function UpperChar(c: char): char {
    if 'a' <= c <= 'z' then c - 'a' + 'A'
    else if c == '\U{0131}' then 'I'
    else if c == '\U{017F}' then 'S'
    else c
  }

  /** Lower-casing; the two listed letters are the only ones outside ASCII whose lower case is an ASCII letter. */
  function LowerChar(c: char): char {
    if 'A' <= c <= 'Z' then c - 'A' + 'a'
    else if c == '\U{0130}' then 'i'
    else if c == '\U{212A}' then 'k'
    else c
  }

  function Upper(s: string): string {
    seq(|s|, i requires 0 <= i < |s| => UpperChar(s[i]))
  }

  function Lower(s: string): string {
    seq(|s|, i requires 0 <= i < |s| => LowerChar(s[i]))
  }

  /** The `strings.ToLower(strings.TrimSpace(s))` used wherever a free-form field is compared. */
  function Normalize(s: string): string {
    Lower(TrimSpace(s))
  }

  lemma NormalizeIdempotent(s: string)
    ensures Normalize(Normalize(s)) == Normalize(s)
  {
    var t := TrimSpace(s);
    TrimSpaceFixedPoints(s);
    assert forall c: char :: LowerChar(LowerChar(c)) == LowerChar(c);
    assert forall c: char :: IsSpace(LowerChar(c)) == IsSpace(c);
    assert Trimmed(Lower(t));
    TrimSpaceFixedPoints(Lower(t));
    assert Lower(Lower(t)) == Lower(t);
  }

  function AsciiLower(c: char): char {
    if 'A' <= c <= 'Z' then c - 'A' + 'a' else c
  }

  /** `strings.EqualFold` against a word without the letters k and s, whose folding leaves ASCII. */
  predicate EqualFold(s: string, word: string) {
    |s| == |word| && forall i :: 0 <= i < |s| ==> AsciiLower(s[i]) == AsciiLower(word[i])
  }

  predicate Contains(s: string, needle: string) {
    |needle| <= |s| && (s[..|needle|] == needle || (s != [] && Contains(s[1..], needle)))
  }

  /** `strings.Join`. */
  function Join(parts: seq<string>, sep: char): string {
    if parts == [] then ""
    else if |parts| == 1 then parts[0]
    else parts[0] + [sep] + Join(parts[1..], sep)
  }

  lemma SeparatorSplits(x: string, y: string, rest: string, rest': string, sep: char)
    requires sep !in x && sep !in y
    requires x + [sep] + rest == y + [sep] + rest'
    ensures x == y && rest == rest'
  {
    var l, r := x + [sep] + rest, y + [sep] + rest';
    assert l[|x|] == sep && r[|y|] == sep;
    assert forall i | 0 <= i < |x| :: l[i] != sep;
    assert forall i | 0 <= i < |y| :: r[i] != sep;
    assert x == l[..|x|] && y == r[..|y|];
    assert rest == l[|x| + 1..] && rest' == r[|y| + 1..];
  }

  /** A join of separator-free fields determines the fields: composite keys never collide. */
  lemma {:induction false} JoinInjective(a: seq<string>, b: seq<string>, sep: char)
    requires |a| == |b|
    requires forall x :: x in a ==> sep !in x
    requires forall x :: x in b ==> sep !in x
    requires Join(a, sep) == Join(b, sep)
    ensures a == b
    decreases |a|
  {
    if |a| > 1 {
      SeparatorSplits(a[0], b[0], Join(a[1..], sep), Join(b[1..], sep), sep);
      JoinInjective(a[1..], b[1..], sep);
      assert a == [a[0]] + a[1..] && b == [b[0]] + b[1..];
    }
  }

  lemma {:induction false} TrimLeftBlank(s: string)
    ensures TrimLeft(s) == [] <==> forall i :: 0 <= i < |s| ==> IsSpace(s[i])
    decreases |s|
  {
    if s != [] {
      TrimLeftBlank(s[1..]);
      assert forall i :: 0 < i < |s| ==> s[i] == s[1..][i - 1];
    }
  }

  lemma {:induction false} TrimRightBlank(s: string)
    ensures TrimRight(s) == [] <==> forall i :: 0 <= i < |s| ==> IsSpace(s[i])
    decreases |s|
  {
    if s != [] {
      TrimRightBlank(s[..|s| - 1]);
      assert forall i :: 0 <= i < |s| - 1 ==> s[i] == s[..|s| - 1][i];
    }
  }

  /** Blank text is text of blanks. */
  lemma BlankChars(s: string)
    ensures Blank(s) <==> forall i :: 0 <= i < |s| ==> IsSpace(s[i])
  {
    TrimLeftBlank(s);
    TrimLeftStartsClean(s);
    TrimRightBlank(TrimLeft(s));
  }

  lemma {:induction false} TrimLeftSuffix(s: string)
    ensures |TrimLeft(s)| <= |s| && TrimLeft(s) == s[|s| - |TrimLeft(s)|..]
    ensures forall i :: 0 <= i < |s| - |TrimLeft(s)| ==> IsSpace(s[i])
    decreases |s|
  {
    if s != [] && IsSpace(s[0]) {
      TrimLeftSuffix(s[1..]);
      assert forall i :: 0 < i < |s| ==> s[i] == s[1..][i - 1];
    }
  }

  lemma {:induction false} TrimRightPrefix(s: string)
    ensures TrimRight(s) <= s
    ensures forall i :: |TrimRight(s)| <= i < |s| ==> IsSpace(s[i])
    decreases |s|
  {
    if s != [] && IsSpace(s[|s| - 1]) {
      TrimRightPrefix(s[..|s| - 1]);
      assert forall i :: 0 <= i < |s| - 1 ==> s[i] == s[..|s| - 1][i];
    }
  }

  /** Trimming drops blanks alone, and invents nothing. */
  lemma TrimChars(s: string, c: char)
    ensures c in TrimSpace(s) ==> c in s
    ensures c in s && !IsSpace(c) ==> c in TrimSpace(s)
  {
    var t := TrimLeft(s);
    TrimLeftSuffix(s);
    TrimRightPrefix(t);
    if c in s && !IsSpace(c) {
      var i :| 0 <= i < |s| && s[i] == c;
      var j := i - (|s| - |t|);
      assert t[j] == c && TrimSpace(s)[j] == c;
    }
  }

  ghost predicate AllSpace(s: string) {
    forall i :: 0 <= i < |s| ==> IsSpace(s[i])
  }

  lemma {:induction false} TrimLeftOf(lead: string, s: string)
    requires AllSpace(lead)
    ensures TrimLeft(lead + s) == TrimLeft(s)
    decreases |lead|
  {
    if lead == [] {
      assert lead + s == s;
    } else {
      assert (lead + s)[1..] == lead[1..] + s;
      TrimLeftOf(lead[1..], s);
    }
  }

  lemma {:induction false} TrimRightOf(s: string, trail: string)
    requires AllSpace(trail)
    ensures TrimRight(s + trail) == TrimRight(s)
    decreases |trail|
  {
    if trail == [] {
      assert s + trail == s;
    } else {
      var n := |trail| - 1;
      assert (s + trail)[..|s| + n] == s + trail[..n] && (s + trail)[|s| + n] == trail[n];
      TrimRightOf(s, trail[..n]);
    }
  }

  /** Trimming takes off the blanks at both ends and nothing else. */
  lemma TrimSpaceOf(lead: string, s: string, trail: string)
    requires AllSpace(lead) && AllSpace(trail) && Trimmed(s)
    ensures TrimSpace(lead + s + trail) == s
  {
    TrimSpaceFixedPoints(s);
    assert lead + s + trail == lead + (s + trail);
    TrimLeftOf(lead, s + trail);
    if s == [] {
      assert s + trail == trail + [];
      TrimLeftOf(trail, []);
    } else {
      assert (s + trail)[0] == s[0];
      TrimRightOf(s, trail);
    }
  }

  /** `s` spells an ASCII word that has no capitals, its letters in either case. */
  ghost predicate SpellsLower(s: string, word: string) {
    |s| == |word| && forall i :: 0 <= i < |s| ==>
      word[i] < '\U{0080}' && !('A' <= word[i] <= 'Z')
      && (s[i] == word[i] || ('a' <= word[i] <= 'z' && s[i] == word[i] - 'a' + 'A'))
  }

  ghost predicate SpellsUpper(s: string, word: string) {
    |s| == |word| && forall i :: 0 <= i < |s| ==>
      word[i] < '\U{0080}' && !('a' <= word[i] <= 'z')
      && (s[i] == word[i] || ('A' <= word[i] <= 'Z' && s[i] == word[i] - 'A' + 'a'))
  }

  /** A word is recognised in any letter case and with any blanks around it. */
  lemma NormalizeOf(lead: string, s: string, word: string, trail: string)
    requires AllSpace(lead) && AllSpace(trail) && Trimmed(s) && SpellsLower(s, word)
    ensures Normalize(lead + s + trail) == word
  {
    TrimSpaceOf(lead, s, trail);
    assert forall i :: 0 <= i < |s| ==> LowerChar(s[i]) == word[i];
  }

  lemma UpperOf(lead: string, s: string, word: string, trail: string)
    requires AllSpace(lead) && AllSpace(trail) && Trimmed(s) && SpellsUpper(s, word)
    ensures Upper(TrimSpace(lead + s + trail)) == word
  {
    TrimSpaceOf(lead, s, trail);
    assert forall i :: 0 <= i < |s| ==> UpperChar(s[i]) == word[i];
  }

  ghost predicate StandsAt(needle: string, s: string, i: nat) {
    i + |needle| <= |s| && s[i..i + |needle|] == needle
  }

  lemma {:induction false} ContainsExact(s: string, needle: string)
    ensures Contains(s, needle) <==> exists i: nat :: StandsAt(needle, s, i)
    decreases |s|
  {
    assert |needle| <= |s| && s[..|needle|] == needle ==> StandsAt(needle, s, 0);
    if s != [] && |needle| <= |s| {
      var rest := s[1..];
      ContainsExact(rest, needle);
      if i: nat :| StandsAt(needle, s, i) {
        if i > 0 {
          assert rest[i - 1..i - 1 + |needle|] == s[i..i + |needle|];
          assert StandsAt(needle, rest, i - 1);
        }
      }
      if i: nat :| StandsAt(needle, rest, i) {
        assert s[i + 1..i + 1 + |needle|] == rest[i..i + |needle|];
        assert StandsAt(needle, s, i + 1);
      }
    }
  }

  // ----- Splitting at separators -----

  function PieceEnd(s: string, isSep: char -> bool): (n: nat)
    ensures n <= |s| && (n < |s| ==> isSep(s[n]))
    ensures forall i :: 0 <= i < n ==> !isSep(s[i])
  {
    if s == [] || isSep(s[0]) then 0 else 1 + PieceEnd(s[1..], isSep)
  }

  /** The trimmed text between separators, blank pieces left out. */
  function Pieces(s: string, isSep: char -> bool): seq<string> {
    if s == [] then []
    else
      var n := PieceEnd(s, isSep);
      var item, rest := TrimSpace(s[..n]), if n == |s| then [] else Pieces(s[n + 1..], isSep);
      if item != "" then [item] + rest else rest
  }

  ghost predicate CleanPiece(p: string, isSep: char -> bool) {
    p != "" && Trimmed(p) && forall c :: c in p ==> !isSep(c)
  }

  lemma TrimmedPieceClean(s: string, isSep: char -> bool)
    requires forall i :: 0 <= i < |s| ==> !isSep(s[i])
    ensures !Blank(s) ==> CleanPiece(TrimSpace(s), isSep)
  {
    TrimSpaceFixedPoints(s);
    forall c | c in TrimSpace(s) ensures !isSep(c) { TrimChars(s, c); }
  }

  lemma CleanHead(item: string, rest: seq<string>, isSep: char -> bool)
    requires item != "" ==> CleanPiece(item, isSep)
    requires forall p :: p in rest ==> CleanPiece(p, isSep)
    ensures forall p :: p in (if item != "" then [item] + rest else rest) ==> CleanPiece(p, isSep)
  {
  }

  /** Pieces are trimmed, not empty, and free of separators. */
  lemma {:induction false} PiecesClean(s: string, isSep: char -> bool)
    ensures forall p :: p in Pieces(s, isSep) ==> CleanPiece(p, isSep)
    decreases |s|
  {
    if s != [] {
      var n := PieceEnd(s, isSep);
      var rest := if n == |s| then [] else Pieces(s[n + 1..], isSep);
      TrimmedPieceClean(s[..n], isSep);
      if n < |s| { PiecesClean(s[n + 1..], isSep); }
      CleanHead(TrimSpace(s[..n]), rest, isSep);
    }
  }

  /** Separators and blanks only. */
  ghost predicate Illegible(s: string, isSep: char -> bool) {
    forall i :: 0 <= i < |s| ==> isSep(s[i]) || IsSpace(s[i])
  }

  lemma IllegibleSplit(s: string, n: nat, isSep: char -> bool)
    requires n < |s| && isSep(s[n])
    ensures Illegible(s, isSep) <==> Illegible(s[..n], isSep) && Illegible(s[n + 1..], isSep)
  {
    var head, tail := s[..n], s[n + 1..];
    if Illegible(head, isSep) && Illegible(tail, isSep) {
      forall i | 0 <= i < |s| ensures isSep(s[i]) || IsSpace(s[i]) {
        if i < n { assert head[i] == s[i]; } else if i > n { assert tail[i - n - 1] == s[i]; }
      }
    }
    if Illegible(s, isSep) {
      assert forall i :: 0 <= i < |tail| ==> tail[i] == s[i + n + 1];
    }
  }

  lemma BlankPiece(s: string, isSep: char -> bool)
    requires forall i :: 0 <= i < |s| ==> !isSep(s[i])
    ensures Blank(s) <==> Illegible(s, isSep)
  {
    BlankChars(s);
  }

  /** There are no pieces exactly when the text is separators and blanks. */
  lemma {:induction false} PiecesEmpty(s: string, isSep: char -> bool)
    ensures Pieces(s, isSep) == [] <==> Illegible(s, isSep)
    decreases |s|
  {
    if s != [] {
      var n := PieceEnd(s, isSep);
      BlankPiece(s[..n], isSep);
      if n < |s| {
        IllegibleSplit(s, n, isSep);
        PiecesEmpty(s[n + 1..], isSep);
      } else {
        assert s[..n] == s;
      }
    }
  }

  lemma {:induction false} PieceEndOf(head: string, tail: string, isSep: char -> bool)
    requires forall i :: 0 <= i < |head| ==> !isSep(head[i])
    requires tail == [] || isSep(tail[0])
    ensures PieceEnd(head + tail, isSep) == |head|
    decreases |head|
  {
    if head == [] {
      assert head + tail == tail;
    } else {
      assert (head + tail)[1..] == head[1..] + tail;
      PieceEndOf(head[1..], tail, isSep);
    }
  }

  /** The first piece, up to the first separator. */
  lemma PiecesCons(head: string, c: char, rest: string, isSep: char -> bool)
    requires isSep(c) && forall i :: 0 <= i < |head| ==> !isSep(head[i])
    ensures Pieces(head + [c] + rest, isSep) == (if Blank(head) then [] else [TrimSpace(head)]) + Pieces(rest, isSep)
  {
    var s, tail := head + [c] + rest, [c] + rest;
    assert s == head + tail;
    PieceEndOf(head, tail, isSep);
    assert s[..|head|] == head && s[|head| + 1..] == rest;
  }

  lemma PiecesOne(head: string, isSep: char -> bool)
    requires forall i :: 0 <= i < |head| ==> !isSep(head[i])
    ensures Pieces(head, isSep) == if Blank(head) then [] else [TrimSpace(head)]
  {
    assert head + [] == head && head[..|head|] == head;
    PieceEndOf(head, [], isSep);
  }

  lemma {:induction false} JoinAppend(a: seq<string>, b: seq<string>, sep: char)
    requires a != [] && b != []
    ensures Join(a + b, sep) == Join(a, sep) + [sep] + Join(b, sep)
    decreases |a|
  {
    if |a| == 1 {
      assert (a + b)[1..] == b;
    } else {
      assert (a + b)[1..] == a[1..] + b;
      JoinAppend(a[1..], b, sep);
    }
  }

  /** The characters of a join: those of the parts, and the separator. */
  lemma {:induction false} JoinChars(parts: seq<string>, sep: char, c: char)
    requires c != sep
    ensures c in Join(parts, sep) <==> exists i :: 0 <= i < |parts| && c in parts[i]
    decreases |parts|
  {
    if |parts| > 1 {
      var rest := parts[1..];
      JoinChars(rest, sep, c);
      if i :| 0 <= i < |rest| && c in rest[i] { assert parts[i + 1] == rest[i]; }
      if i :| 0 <= i < |parts| && c in parts[i] { assert i > 0 ==> rest[i - 1] == parts[i]; }
    }
  }
}
