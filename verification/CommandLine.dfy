/** Splitting a command line into arguments, with quotes and backslash escapes. */
module CommandLine {
  import opened Text

  const BACKSLASH := '\\'
  const DOUBLE := '"'

  /** The scanner between two characters. `quote` is the open quote, if any. */
  datatype Scan = Scan(out: seq<string>, word: string, quote: Option<char>, escaped: bool)

  const START := Scan([], "", None, false)

  datatype Split = Words(words: seq<string>) | Unterminated

  predicate Separator(c: char) {
    c == ' ' || c == '\t' || c == '\n' || c == '\r'
  }

  function Flush(out: seq<string>, word: string): seq<string> {
    if word == "" then out else out + [word]
  }

  function Step(s: Scan, c: char): Scan {
    if s.escaped then s.(word := s.word + [c], escaped := false)
    else if c == BACKSLASH then s.(escaped := true)
    else if s.quote.Some? then (if c == s.quote.value then s.(quote := None) else s.(word := s.word + [c]))
    else if c == '\'' || c == DOUBLE then s.(quote := Some(c))
    else if Separator(c) then Scan(Flush(s.out, s.word), "", None, false)
    else s.(word := s.word + [c])
  }

  function ScanAll(s: Scan, text: string): Scan
    decreases |text|
  {
    if text == "" then s else ScanAll(Step(s, text[0]), text[1..])
  }

  /** After the last character: a dangling backslash stands for itself. */
  function Finish(s: Scan): Split {
    var word := if s.escaped then s.word + [BACKSLASH] else s.word;
    if s.quote.Some? then Unterminated else Words(Flush(s.out, word))
  }

  function SplitOf(command: string): Split {
    Finish(ScanAll(START, TrimSpace(command)))
  }

  lemma {:induction false} ScanAppend(s: Scan, a: string, b: string)
    ensures ScanAll(s, a + b) == ScanAll(ScanAll(s, a), b)
    decreases |a|
  {
    if a == "" {
      assert a + b == b;
    } else {
      assert (a + b)[1..] == a[1..] + b;
      ScanAppend(Step(s, a[0]), a[1..], b);
    }
  }

  /** The splitter: one pass over the trimmed command. */
  method SplitCommandLine(command: string) returns (r: Split)
    ensures r == SplitOf(command)
  {
    var text := TrimSpace(command);
    if text == "" { return Words([]); }
    var out: seq<string>, word: string, quote: Option<char>, escaped := [], "", None, false;
    var i := 0;
    while i < |text|
      invariant 0 <= i <= |text|
      invariant ScanAll(Scan(out, word, quote, escaped), text[i..]) == ScanAll(START, text)
    {
      var c := text[i];
      assert text[i..][0] == c && text[i..][1..] == text[i + 1..];
      i := i + 1;
      if escaped {
        word := word + [c];
        escaped := false;
      } else if c == BACKSLASH {
        escaped := true;
      } else if quote.Some? {
        if c == quote.value { quote := None; } else { word := word + [c]; }
      } else if c == '\'' || c == DOUBLE {
        quote := Some(c);
      } else if Separator(c) {
        if |word| > 0 {
          out := out + [word];
          word := "";
        }
      } else {
        word := word + [c];
      }
    }
    assert text[i..] == "";
    if escaped { word := word + [BACKSLASH]; }
    if quote.Some? { return Unterminated; }
    if |word| > 0 { out := out + [word]; }
    return Words(out);
  }

  // ----- Every input -----

  ghost predicate NoEmpty(words: seq<string>) {
    forall i :: 0 <= i < |words| ==> words[i] != ""
  }

  lemma {:induction false} ScanKeepsNoEmpty(s: Scan, text: string)
    requires NoEmpty(s.out)
    ensures NoEmpty(ScanAll(s, text).out)
    decreases |text|
  {
    if text != "" { ScanKeepsNoEmpty(Step(s, text[0]), text[1..]); }
  }

  /** The quoting state alone, as a reference: an escape hides the next character, and only the quote
      that opened closes. */
  function QuoteAfter(text: string): (q: (Option<char>, bool))
    decreases |text|
  {
    if text == "" then (None, false)
    else
      var (quote, escaped) := QuoteAfter(text[..|text| - 1]);
      var c := text[|text| - 1];
      if escaped then (quote, false)
      else if c == BACKSLASH then (quote, true)
      else match quote
        case Some(open) => (if c == open then None else quote, false)
        case None => (if c == '\'' || c == DOUBLE then Some(c) else None, false)
  }

  lemma {:induction false} ScanQuote(text: string)
    ensures ScanAll(START, text).quote == QuoteAfter(text).0
    ensures ScanAll(START, text).escaped == QuoteAfter(text).1
    decreases |text|
  {
    if text != "" {
      var front, last := text[..|text| - 1], text[|text| - 1..];
      assert text == front + last && last[1..] == "";
      ScanAppend(START, front, last);
      ScanQuote(front);
      assert ScanAll(ScanAll(START, front), last) == ScanAll(Step(ScanAll(START, front), last[0]), last[1..]);
    }
  }

  /** No word is ever empty, and the command is refused exactly when its scan ends inside a quote. */
  lemma SplitAlways(command: string)
    ensures SplitOf(command).Words? ==> NoEmpty(SplitOf(command).words)
    ensures SplitOf(command).Unterminated? <==> QuoteAfter(TrimSpace(command)).0.Some?
  {
    ScanKeepsNoEmpty(START, TrimSpace(command));
    ScanQuote(TrimSpace(command));
  }

  // ----- Quoting and splitting -----

  /** The characters of a word inside double quotes. */
  function Escape(word: string): string {
    if word == "" then ""
    else (if word[0] == BACKSLASH || word[0] == DOUBLE then [BACKSLASH, word[0]] else [word[0]]) + Escape(word[1..])
  }

  function Quote(word: string): string {
    [DOUBLE] + Escape(word) + [DOUBLE]
  }

  function QuoteAll(words: seq<string>): string {
    if words == [] then ""
    else if |words| == 1 then Quote(words[0])
    else Quote(words[0]) + " " + QuoteAll(words[1..])
  }

  lemma ScanHead(s: Scan, c: char)
    requires s.quote == Some(DOUBLE) && !s.escaped
    ensures ScanAll(s, if c == BACKSLASH || c == DOUBLE then [BACKSLASH, c] else [c]) == s.(word := s.word + [c])
  {
    if c == BACKSLASH || c == DOUBLE {
      var t := [BACKSLASH, c];
      assert t[1..] == [c] && [c][1..] == "";
      assert ScanAll(s, t) == ScanAll(Step(s, BACKSLASH), [c]) == ScanAll(Step(Step(s, BACKSLASH), c), "");
    } else {
      assert [c][1..] == "";
      assert ScanAll(s, [c]) == ScanAll(Step(s, c), "");
    }
  }

  lemma {:induction false} ScanEscaped(s: Scan, word: string)
    requires s.quote == Some(DOUBLE) && !s.escaped
    ensures ScanAll(s, Escape(word)) == s.(word := s.word + word)
    decreases |word|
  {
    if word == "" {
      assert s.word + word == s.word;
    } else {
      var c, rest := word[0], word[1..];
      var head := if c == BACKSLASH || c == DOUBLE then [BACKSLASH, c] else [c];
      ScanAppend(s, head, Escape(rest));
      var s' := s.(word := s.word + [c]);
      ScanHead(s, c);
      ScanEscaped(s', rest);
      assert s.word + [c] + rest == s.word + word;
    }
  }

  lemma ScanOne(s: Scan, c: char)
    ensures ScanAll(s, [c]) == Step(s, c)
  {
    assert [c][1..] == "";
  }

  lemma ScanQuoted(out: seq<string>, word: string)
    ensures ScanAll(Scan(out, "", None, false), Quote(word)) == Scan(out, word, None, false)
  {
    var s := Scan(out, "", None, false);
    var inside := s.(quote := Some(DOUBLE));
    ScanAppend(s, [DOUBLE] + Escape(word), [DOUBLE]);
    ScanAppend(s, [DOUBLE], Escape(word));
    ScanOne(s, DOUBLE);
    ScanEscaped(inside, word);
    assert "" + word == word;
    ScanOne(inside.(word := word), DOUBLE);
  }

  /** The words that are not empty. */
  function NonEmpty(words: seq<string>): seq<string> {
    if words == [] then [] else Flush([], words[0]) + NonEmpty(words[1..])
  }

  lemma FlushAppend(out: seq<string>, word: string, rest: seq<string>)
    ensures Flush(out, word) + rest == out + (Flush([], word) + rest)
  {
  }

  lemma {:induction false} ScanQuotedAll(out: seq<string>, words: seq<string>)
    requires words != []
    ensures Finish(ScanAll(Scan(out, "", None, false), QuoteAll(words))) == Words(out + NonEmpty(words))
    decreases |words|
  {
    var s, w, rest := Scan(out, "", None, false), words[0], words[1..];
    ScanQuoted(out, w);
    FlushAppend(out, w, NonEmpty(rest));
    if rest == [] {
      assert Flush(out, w) + [] == Flush(out, w);
    } else {
      ScanAppend(s, Quote(w) + " ", QuoteAll(rest));
      ScanAppend(s, Quote(w), " ");
      ScanOne(Scan(out, w, None, false), ' ');
      ScanQuotedAll(Flush(out, w), rest);
    }
  }

  lemma {:induction false} QuoteAllEnds(words: seq<string>)
    requires words != []
    ensures QuoteAll(words) != "" && QuoteAll(words)[0] == DOUBLE && QuoteAll(words)[|QuoteAll(words)| - 1] == DOUBLE
    decreases |words|
  {
    if |words| > 1 { QuoteAllEnds(words[1..]); }
  }

  lemma QuotedIsTrimmed(words: seq<string>)
    ensures TrimSpace(QuoteAll(words)) == QuoteAll(words)
  {
    TrimSpaceFixedPoints(QuoteAll(words));
    if words != [] { QuoteAllEnds(words); }
  }

  /** Quoting a list of words and splitting it gives back the words that are not empty. */
  lemma SplitOfQuoted(words: seq<string>)
    ensures SplitOf(QuoteAll(words)) == Words(NonEmpty(words))
  {
    QuotedIsTrimmed(words);
    if words == [] {
      assert SplitOf("") == Finish(ScanAll(START, ""));
    } else {
      ScanQuotedAll([], words);
      assert [] + NonEmpty(words) == NonEmpty(words);
    }
  }

  lemma {:induction false} NonEmptyShorter(words: seq<string>)
    ensures |NonEmpty(words)| <= |words|
    ensures "" in words ==> |NonEmpty(words)| < |words|
    decreases |words|
  {
    if words != [] { NonEmptyShorter(words[1..]); }
  }

  lemma {:induction false} NonEmptySame(words: seq<string>)
    requires "" !in words
    ensures NonEmpty(words) == words
    decreases |words|
  {
    if words != [] {
      NonEmptySame(words[1..]);
      assert words == [words[0]] + words[1..];
    }
  }

  /** The round trip is exact exactly for lists without an empty word: an empty argument cannot be passed. */
  lemma QuoteRoundTrip(words: seq<string>)
    ensures SplitOf(QuoteAll(words)) == Words(words) <==> NoEmpty(words)
  {
    SplitOfQuoted(words);
    NonEmptyShorter(words);
    if "" !in words { NonEmptySame(words); }
  }

  // ----- Words in pieces: plain, quoted either way, escaped -----

  datatype Piece = Plain(text: string) | Single(text: string) | Double(text: string) | Escaped(c: char)

  predicate PlainChar(c: char) {
    c != BACKSLASH && c != '\'' && c != DOUBLE && !Separator(c)
  }

  /** What may stand bare, and what may stand between single quotes. */
  ghost predicate Proper(p: Piece) {
    match p
    case Plain(text) => forall i :: 0 <= i < |text| ==> PlainChar(text[i])
    case Single(text) => forall i :: 0 <= i < |text| ==> text[i] != BACKSLASH && text[i] != '\''
    case Double(_) => true
    case Escaped(_) => true
  }

  ghost predicate AllProper(ps: seq<Piece>) {
    forall i :: 0 <= i < |ps| ==> Proper(ps[i])
  }

  function Source(p: Piece): string {
    match p
    case Plain(text) => text
    case Single(text) => ['\''] + text + ['\'']
    case Double(text) => Quote(text)
    case Escaped(c) => [BACKSLASH, c]
  }

  function Literal(p: Piece): string {
    match p
    case Plain(text) => text
    case Single(text) => text
    case Double(text) => text
    case Escaped(c) => [c]
  }

  function SourceAll(ps: seq<Piece>): string {
    if ps == [] then "" else Source(ps[0]) + SourceAll(ps[1..])
  }

  function LiteralAll(ps: seq<Piece>): string {
    if ps == [] then "" else Literal(ps[0]) + LiteralAll(ps[1..])
  }

  lemma {:induction false} ScanPlain(s: Scan, text: string)
    requires !s.escaped && s.quote == None && Proper(Plain(text))
    ensures ScanAll(s, text) == s.(word := s.word + text)
    decreases |text|
  {
    if text == "" {
      assert s.word + text == s.word;
    } else {
      assert PlainChar(text[0]);
      ScanPlain(s.(word := s.word + [text[0]]), text[1..]);
      assert s.word + [text[0]] + text[1..] == s.word + text;
    }
  }

  lemma {:induction false} ScanSingle(s: Scan, text: string)
    requires !s.escaped && s.quote == Some('\'') && Proper(Single(text))
    ensures ScanAll(s, text) == s.(word := s.word + text)
    decreases |text|
  {
    if text == "" {
      assert s.word + text == s.word;
    } else {
      assert text[0] != BACKSLASH && text[0] != '\'';
      ScanSingle(s.(word := s.word + [text[0]]), text[1..]);
      assert s.word + [text[0]] + text[1..] == s.word + text;
    }
  }

  /** A piece adds its literal text to the word, whatever stands before it. */
  lemma ScanPiece(s: Scan, p: Piece)
    requires !s.escaped && s.quote == None && Proper(p)
    ensures ScanAll(s, Source(p)) == s.(word := s.word + Literal(p))
  {
    match p
    case Plain(text) => ScanPlain(s, text);
    case Single(text) =>
      var inside := s.(quote := Some('\''));
      ScanAppend(s, ['\''] + text, ['\'']);
      ScanAppend(s, ['\''], text);
      ScanOne(s, '\'');
      ScanSingle(inside, text);
      ScanOne(inside.(word := s.word + text), '\'');
    case Double(text) =>
      var inside := s.(quote := Some(DOUBLE));
      ScanAppend(s, [DOUBLE] + Escape(text), [DOUBLE]);
      ScanAppend(s, [DOUBLE], Escape(text));
      ScanOne(s, DOUBLE);
      ScanEscaped(inside, text);
      ScanOne(inside.(word := s.word + text), DOUBLE);
    case Escaped(c) =>
      assert [BACKSLASH, c] == [BACKSLASH] + [c];
      ScanAppend(s, [BACKSLASH], [c]);
      ScanOne(s, BACKSLASH);
      ScanOne(s.(escaped := true), c);
  }

  lemma Associates(a: string, b: string, c: string)
    ensures a + b + c == a + (b + c)
  {
  }

  lemma {:induction false} ScanPieces(s: Scan, ps: seq<Piece>)
    requires !s.escaped && s.quote == None && AllProper(ps)
    ensures ScanAll(s, SourceAll(ps)) == s.(word := s.word + LiteralAll(ps))
    decreases |ps|
  {
    if ps == [] {
      assert s.word + "" == s.word;
    } else {
      assert Proper(ps[0]);
      ScanAppend(s, Source(ps[0]), SourceAll(ps[1..]));
      ScanPiece(s, ps[0]);
      ScanPieces(s.(word := s.word + Literal(ps[0])), ps[1..]);
      Associates(s.word, Literal(ps[0]), LiteralAll(ps[1..]));
    }
  }

  ghost predicate Gap(g: string) {
    g != "" && forall i :: 0 <= i < |g| ==> Separator(g[i])
  }

  lemma {:induction false} ScanBlanks(out: seq<string>, g: string)
    requires forall i :: 0 <= i < |g| ==> Separator(g[i])
    ensures ScanAll(Scan(out, "", None, false), g) == Scan(out, "", None, false)
    decreases |g|
  {
    if g != "" {
      assert Separator(g[0]);
      ScanBlanks(out, g[1..]);
    }
  }

  /** A gap ends the word. */
  lemma ScanGap(out: seq<string>, word: string, g: string)
    requires Gap(g)
    ensures ScanAll(Scan(out, word, None, false), g) == Scan(Flush(out, word), "", None, false)
  {
    assert Separator(g[0]);
    ScanBlanks(Flush(out, word), g[1..]);
  }

  /** A line of words in pieces, with a gap between any two. */
  function Line(args: seq<seq<Piece>>, gaps: seq<string>): string
    requires |args| == |gaps| + 1
  {
    if gaps == [] then SourceAll(args[0]) else SourceAll(args[0]) + gaps[0] + Line(args[1..], gaps[1..])
  }

  function Literals(args: seq<seq<Piece>>): seq<string> {
    if args == [] then [] else [LiteralAll(args[0])] + Literals(args[1..])
  }

  ghost predicate ProperLine(args: seq<seq<Piece>>, gaps: seq<string>) {
    && |args| == |gaps| + 1 && (forall i :: 0 <= i < |args| ==> AllProper(args[i]))
    && forall i :: 0 <= i < |gaps| ==> Gap(gaps[i])
  }

  lemma {:induction false} ScanLine(out: seq<string>, args: seq<seq<Piece>>, gaps: seq<string>)
    requires ProperLine(args, gaps)
    ensures Finish(ScanAll(Scan(out, "", None, false), Line(args, gaps))) == Words(out + NonEmpty(Literals(args)))
    decreases |gaps|
  {
    var s, w := Scan(out, "", None, false), LiteralAll(args[0]);
    assert AllProper(args[0]) && "" + w == w;
    ScanPieces(s, args[0]);
    FlushAppend(out, w, NonEmpty(Literals(args[1..])));
    if gaps == [] {
      assert args[1..] == [] && Flush(out, w) + [] == Flush(out, w);
    } else {
      assert Gap(gaps[0]);
      ScanAppend(s, SourceAll(args[0]) + gaps[0], Line(args[1..], gaps[1..]));
      ScanAppend(s, SourceAll(args[0]), gaps[0]);
      ScanGap(out, w, gaps[0]);
      ScanLine(Flush(out, w), args[1..], gaps[1..]);
    }
  }

  /** The words of a line are the literal texts of its arguments, empty ones left out: bare characters stand for
      themselves, quotes of either kind and escapes are resolved, adjacent pieces make one word. */
  lemma SplitOfLine(lead: string, args: seq<seq<Piece>>, gaps: seq<string>, trail: string)
    requires ProperLine(args, gaps) && Trimmed(Line(args, gaps)) && AllSpace(lead) && AllSpace(trail)
    ensures SplitOf(lead + Line(args, gaps) + trail) == Words(NonEmpty(Literals(args)))
  {
    TrimSpaceOf(lead, Line(args, gaps), trail);
    ScanLine([], args, gaps);
    assert [] + NonEmpty(Literals(args)) == NonEmpty(Literals(args));
  }

  /** A backslash with nothing after it stands for itself. */
  lemma SplitOfDangling(ps: seq<Piece>)
    requires AllProper(ps) && Trimmed(SourceAll(ps) + [BACKSLASH])
    ensures SplitOf(SourceAll(ps) + [BACKSLASH]) == Words([LiteralAll(ps) + [BACKSLASH]])
  {
    var text := SourceAll(ps);
    TrimSpaceFixedPoints(text + [BACKSLASH]);
    ScanAppend(START, text, [BACKSLASH]);
    ScanPieces(START, ps);
    assert "" + LiteralAll(ps) == LiteralAll(ps);
    ScanOne(START.(word := LiteralAll(ps)), BACKSLASH);
  }

  /** A word that needs no quoting. */
  ghost predicate Bare(word: string) {
    word != "" && forall i :: 0 <= i < |word| ==> PlainChar(word[i]) && !IsSpace(word[i])
  }

  function Pieced(words: seq<string>): seq<seq<Piece>> {
    seq(|words|, i requires 0 <= i < |words| => [Plain(words[i])])
  }

  /** Words with a gap between any two. */
  function Spaced(words: seq<string>, gaps: seq<string>): string
    requires |words| == |gaps| + 1
  {
    if gaps == [] then words[0] else words[0] + gaps[0] + Spaced(words[1..], gaps[1..])
  }

  lemma OnePiece(word: string)
    ensures SourceAll([Plain(word)]) == word && LiteralAll([Plain(word)]) == word
  {
    var ps := [Plain(word)];
    assert ps[1..] == [] && word + "" == word;
  }

  lemma {:induction false} PiecedLine(words: seq<string>, gaps: seq<string>)
    requires |words| == |gaps| + 1
    ensures Line(Pieced(words), gaps) == Spaced(words, gaps) && Literals(Pieced(words)) == words
    decreases |gaps|
  {
    OnePiece(words[0]);
    assert Pieced(words)[1..] == Pieced(words[1..]);
    if gaps == [] {
      assert Literals(Pieced(words)[1..]) == [] && words == [words[0]] + [];
    } else {
      PiecedLine(words[1..], gaps[1..]);
      assert words == [words[0]] + words[1..];
    }
  }

  lemma {:induction false} SpacedEnds(words: seq<string>, gaps: seq<string>)
    requires |words| == |gaps| + 1 && forall i :: 0 <= i < |words| ==> Bare(words[i])
    ensures var s := Spaced(words, gaps);
      s != "" && !IsSpace(s[0]) && !IsSpace(s[|s| - 1])
    decreases |gaps|
  {
    assert Bare(words[0]);
    if gaps != [] { SpacedEnds(words[1..], gaps[1..]); }
  }

  /** Ordinary text: bare words with any gaps between them, and any blanks around, split into those words. */
  lemma SplitOfBare(lead: string, words: seq<string>, gaps: seq<string>, trail: string)
    requires |words| == |gaps| + 1 && (forall i :: 0 <= i < |words| ==> Bare(words[i]))
    requires (forall i :: 0 <= i < |gaps| ==> Gap(gaps[i])) && AllSpace(lead) && AllSpace(trail)
    ensures SplitOf(lead + Spaced(words, gaps) + trail) == Words(words)
  {
    PiecedLine(words, gaps);
    SpacedEnds(words, gaps);
    assert Bare(words[0]);
    forall i | 0 <= i < |words| ensures AllProper(Pieced(words)[i]) { assert Bare(words[i]); }
    SplitOfLine(lead, Pieced(words), gaps, trail);
    forall i | 0 <= i < |words| ensures words[i] != "" { assert Bare(words[i]); }
    NonEmptySame(words);
  }

  lemma SampleBare()
    ensures SplitOf("ls -la") == Words(["ls", "-la"])
  {
    var words, gaps := ["ls", "-la"], [" "];
    assert words[1..] == ["-la"] && gaps[1..] == [];
    assert Spaced(words[1..], gaps[1..]) == "-la" && Spaced(words, gaps) == "ls" + " " + "-la";
    SplitOfBare("", words, gaps, "");
    assert "" + ("ls" + " " + "-la") + "" == "ls -la";
  }

  lemma SourceOfThree(p: Piece, q: Piece, t: Piece)
    ensures SourceAll([p, q, t]) == Source(p) + Source(q) + Source(t)
    ensures LiteralAll([p, q, t]) == Literal(p) + Literal(q) + Literal(t)
  {
    var one, two := [t], [q, t];
    assert one[1..] == [] && two[1..] == one && [p, q, t][1..] == two;
    assert SourceAll(one) == Source(t) + "" && LiteralAll(one) == Literal(t) + "";
    assert SourceAll(two) == Source(q) + SourceAll(one) && LiteralAll(two) == Literal(q) + LiteralAll(one);
    Associates(Source(p), Source(q), Source(t));
    Associates(Literal(p), Literal(q), Literal(t));
  }

  /** A bare, a double-quoted and a single-quoted piece make one word. */
  lemma AdjacentPieces(a: string, b: string, c: string)
    requires Bare(a) && Proper(Single(c))
    ensures SplitOf(a + Quote(b) + (['\''] + c + ['\''])) == Words([a + b + c])
  {
    var ps := [Plain(a), Double(b), Single(c)];
    var args: seq<seq<Piece>>, text := [ps], SourceAll(ps);
    SourceOfThree(ps[0], ps[1], ps[2]);
    assert text[0] == a[0] && text[|text| - 1] == '\'';
    assert args[1..] == [] && Literals(args) == [a + b + c] && [a + b + c][1..] == [];
    SplitOfLine("", args, [], "");
    assert "" + text + "" == text;
  }
}
