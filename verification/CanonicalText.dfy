/** The canonical text of a request: whitespace normalisation, and the scoring message built from it. */
module CanonicalText {
  import opened Ordering

  /** The characters Go's unicode.IsSpace accepts. */
  predicate IsSpace(c: char) {
    || '\t' <= c <= '\r' || c == ' ' || c == '\U{85}' || c == '\U{A0}' || c == '\U{1680}'
    || '\U{2000}' <= c <= '\U{200A}' || c == '\U{2028}' || c == '\U{2029}' || c == '\U{202F}'
    || c == '\U{205F}' || c == '\U{3000}'
  }

  /** Among the ASCII characters: tab, line feed, vertical tab, form feed, carriage return and space. */
  lemma AsciiSpaces(c: char)
    requires c as int < 128
    ensures IsSpace(c) <==> c as int in {9, 10, 11, 12, 13, 32}
  {
  }

  // ----- words -----

  function Flush(word: string): seq<string> { if word == "" then [] else [word] }

  /** The words of s, the first of them continuing `word`. */
  function Words(word: string, s: string): seq<string>
    decreases |s|
  {
    if s == "" then Flush(word)
    else if IsSpace(s[0]) then Flush(word) + Words("", s[1..])
    else Words(word + [s[0]], s[1..])
  }

  /** strings.Fields. */
  function Fields(s: string): seq<string> { Words("", s) }

  function Join(parts: seq<string>, sep: string): string {
    if parts == [] then ""
    else if |parts| == 1 then parts[0]
    else parts[0] + (sep + Join(parts[1..], sep))
  }

  function TrimLeft(s: string): string {
    if s != "" && IsSpace(s[0]) then TrimLeft(s[1..]) else s
  }

  function TrimRight(s: string): string {
    if s != "" && IsSpace(s[|s| - 1]) then TrimRight(s[..|s| - 1]) else s
  }

  function TrimSpace(s: string): string { TrimRight(TrimLeft(s)) }

  /** strings.ReplaceAll(s, "\r\n", "\n"). */
  function UnixLines(s: string): string {
    if s == "" then ""
    else if |s| >= 2 && s[0] == '\r' && s[1] == '\n' then ['\n'] + UnixLines(s[2..])
    else [s[0]] + UnixLines(s[1..])
  }

  function CollapseSpaces(s: string): string { Join(Fields(s), " ") }

  function NormalizeText(text: string): string { CollapseSpaces(UnixLines(TrimSpace(text))) }

  // ----- what trimming and line-ending repair do -----

  ghost predicate Blank(s: string) { forall i | 0 <= i < |s| :: IsSpace(s[i]) }

  ghost predicate Trimmed(s: string) { s == "" || (!IsSpace(s[0]) && !IsSpace(s[|s| - 1])) }

  lemma {:induction false} TrimLeftExact(s: string) returns (left: string)
    ensures s == left + TrimLeft(s) && Blank(left)
    ensures TrimLeft(s) == "" || !IsSpace(TrimLeft(s)[0])
  {
    left := "";
    if s != "" && IsSpace(s[0]) {
      left := TrimLeftExact(s[1..]);
      left := [s[0]] + left;
    }
  }

  lemma {:induction false} TrimRightExact(s: string) returns (right: string)
    ensures s == TrimRight(s) + right && Blank(right)
    ensures TrimRight(s) == "" || !IsSpace(TrimRight(s)[|TrimRight(s)| - 1])
  {
    right := "";
    if s != "" && IsSpace(s[|s| - 1]) {
      right := TrimRightExact(s[..|s| - 1]);
      right := right + [s[|s| - 1]];
    }
  }

  /** Trimming takes only spaces off, and leaves none at either end. */
  lemma TrimExact(s: string) returns (left: string, right: string)
    ensures s == left + TrimSpace(s) + right && Blank(left) && Blank(right)
    ensures Trimmed(TrimSpace(s))
  {
    left := TrimLeftExact(s);
    right := TrimRightExact(TrimLeft(s));
    assert TrimSpace(s) != "" ==> TrimLeft(s)[0] == TrimSpace(s)[0];
  }

  lemma TrimmedStays(s: string)
    requires Trimmed(s)
    ensures TrimSpace(s) == s
  {
  }

  ghost predicate HasCrLf(s: string) { exists i :: 0 <= i < |s| - 1 && s[i] == '\r' && s[i + 1] == '\n' }

  /** Every CRLF becomes a line feed. */
  lemma {:induction false} CrLfBecomesLf(a: string, b: string)
    ensures UnixLines(a + "\r\n" + b) == UnixLines(a) + "\n" + UnixLines(b)
    decreases |a|
  {
    var s := a + "\r\n" + b;
    if a == "" {
      assert s[2..] == b;
    } else if |a| >= 2 && a[0] == '\r' && a[1] == '\n' {
      assert s[2..] == a[2..] + "\r\n" + b;
      CrLfBecomesLf(a[2..], b);
    } else {
      assert s[1..] == a[1..] + "\r\n" + b;
      CrLfBecomesLf(a[1..], b);
    }
  }

  lemma TailHasCrLf(a: string)
    requires a != "" && HasCrLf(a[1..])
    ensures HasCrLf(a)
  {
    var i :| 0 <= i < |a[1..]| - 1 && a[1..][i] == '\r' && a[1..][i + 1] == '\n';
    assert a[i + 1] == '\r' && a[i + 1 + 1] == '\n';
  }

  /** Everything else stays. */
  lemma {:induction false} WithoutCrLfStays(a: string)
    requires !HasCrLf(a)
    ensures UnixLines(a) == a
  {
    if a != "" {
      if HasCrLf(a[1..]) {
        TailHasCrLf(a);
      }
      WithoutCrLfStays(a[1..]);
      assert a == [a[0]] + a[1..];
    }
  }

  // ----- normalisation keeps exactly the words -----

  lemma {:induction false} WordsIgnoreTrailingSpace(word: string, s: string, c: char)
    requires IsSpace(c)
    ensures Words(word, s + [c]) == Words(word, s)
    decreases |s|
  {
    if s == "" {
      assert (s + [c])[1..] == "";
      assert Flush("") == [] && Words("", "") == [];
      assert Words(word, s + [c]) == Flush(word) + Words("", (s + [c])[1..]);
    } else {
      assert (s + [c])[1..] == s[1..] + [c];
      WordsIgnoreTrailingSpace("", s[1..], c);
      WordsIgnoreTrailingSpace(word + [s[0]], s[1..], c);
    }
  }

  lemma {:induction false} TrimLeftKeepsWords(s: string)
    ensures Fields(TrimLeft(s)) == Fields(s)
  {
    if s != "" && IsSpace(s[0]) {
      TrimLeftKeepsWords(s[1..]);
    }
  }

  lemma {:induction false} TrimRightKeepsWords(s: string)
    ensures Fields(TrimRight(s)) == Fields(s)
  {
    var n := |s| - 1;
    if s != "" && IsSpace(s[n]) {
      TrimRightKeepsWords(s[..n]);
      WordsIgnoreTrailingSpace("", s[..n], s[n]);
      assert s == s[..n] + [s[n]];
    }
  }

  lemma {:induction false} UnixLinesKeepWords(word: string, s: string)
    ensures Words(word, UnixLines(s)) == Words(word, s)
    decreases |s|
  {
    if s == "" {
    } else if |s| >= 2 && s[0] == '\r' && s[1] == '\n' {
      UnixLinesKeepWords("", s[2..]);
      assert UnixLines(s)[1..] == UnixLines(s[2..]);
      assert s[1..][1..] == s[2..];
      assert Words("", s[1..]) == Flush("") + Words("", s[2..]);
    } else {
      UnixLinesKeepWords("", s[1..]);
      UnixLinesKeepWords(word + [s[0]], s[1..]);
      assert UnixLines(s)[1..] == UnixLines(s[1..]);
    }
  }

  /** Trimming and line-ending repair are absorbed by the splitting into words. */
  lemma NormalizeIsJoinedWords(text: string)
    ensures NormalizeText(text) == Join(Fields(text), " ")
  {
    UnixLinesKeepWords("", TrimSpace(text));
    TrimRightKeepsWords(TrimLeft(text));
    TrimLeftKeepsWords(text);
  }

  // ----- splitting and joining undo each other -----

  ghost predicate Solid(word: string) {
    word != "" && forall i | 0 <= i < |word| :: !IsSpace(word[i])
  }

  ghost predicate AllSolid(words: seq<string>) { forall i | 0 <= i < |words| :: Solid(words[i]) }

  lemma {:induction false} WordsAreSolid(word: string, s: string)
    requires word == "" || Solid(word)
    ensures AllSolid(Words(word, s))
    decreases |s|
  {
    if s != "" {
      if IsSpace(s[0]) {
        WordsAreSolid("", s[1..]);
      } else {
        WordsAreSolid(word + [s[0]], s[1..]);
      }
    }
  }

  lemma {:induction false} WordsPrefix(word: string, more: string, rest: string)
    requires forall i | 0 <= i < |more| :: !IsSpace(more[i])
    ensures Words(word, more + rest) == Words(word + more, rest)
    decreases |more|
  {
    if more == "" {
      assert more + rest == rest && word + more == word;
    } else {
      assert (more + rest)[1..] == more[1..] + rest;
      WordsPrefix(word + [more[0]], more[1..], rest);
      assert word + [more[0]] + more[1..] == word + more;
    }
  }

  /** Text before a space does not touch the words after it. */
  lemma {:induction false} WordsAtSpace(word: string, a: string, c: char, b: string)
    requires IsSpace(c)
    ensures Words(word, a + [c] + b) == Words(word, a) + Fields(b)
    decreases |a|
  {
    if a == "" {
      assert "" + [c] + b == [c] + b;
      assert ([c] + b)[1..] == b;
    } else {
      assert (a + [c] + b)[1..] == a[1..] + [c] + b;
      WordsAtSpace("", a[1..], c, b);
      WordsAtSpace(word + [a[0]], a[1..], c, b);
    }
  }

  /** What the words of a text are: none of an empty text, a text without spaces itself, and on both sides of any space
      those of the two sides. */
  lemma FieldsAreWords(a: string, c: char, b: string, word: string)
    requires IsSpace(c) && Solid(word)
    ensures Fields("") == []
    ensures Fields(word) == [word]
    ensures Fields(a + [c] + b) == Fields(a) + Fields(b)
  {
    WordsAtSpace("", a, c, b);
    WordsPrefix("", word, "");
    assert word + "" == word && "" + word == word;
  }

  /** Splitting a text joined from words gives the words back. */
  lemma {:induction false} SplitOfJoin(words: seq<string>)
    requires AllSolid(words)
    ensures Fields(Join(words, " ")) == words
  {
    if |words| == 1 {
      WordsPrefix("", words[0], "");
      assert words[0] + "" == words[0] && "" + words[0] == words[0];
    } else if |words| > 1 {
      var rest := Join(words[1..], " ");
      WordsPrefix("", words[0], " " + rest);
      assert "" + words[0] == words[0] && (" " + rest)[1..] == rest;
      SplitOfJoin(words[1..]);
    }
  }

  /** Two texts normalise alike exactly when they have the same word sequence. */
  lemma NormalizeMergesExactly(a: string, b: string)
    ensures NormalizeText(a) == NormalizeText(b) <==> Fields(a) == Fields(b)
  {
    NormalizeIsJoinedWords(a);
    NormalizeIsJoinedWords(b);
    WordsAreSolid("", a);
    WordsAreSolid("", b);
    SplitOfJoin(Fields(a));
    SplitOfJoin(Fields(b));
  }

  lemma NormalizeIdempotent(text: string)
    ensures NormalizeText(NormalizeText(text)) == NormalizeText(text)
  {
    NormalizeIsJoinedWords(text);
    NormalizeIsJoinedWords(NormalizeText(text));
    WordsAreSolid("", text);
    SplitOfJoin(Fields(text));
  }

  lemma {:induction false} JoinIsOneLine(words: seq<string>)
    requires AllSolid(words)
    ensures forall i | 0 <= i < |Join(words, " ")| :: Join(words, " ")[i] == ' ' || !IsSpace(Join(words, " ")[i])
  {
    if |words| > 1 {
      JoinIsOneLine(words[1..]);
    }
  }

  /** The only whitespace in a normalised text is the plain space. */
  lemma NormalizedIsOneLine(text: string)
    ensures '\n' !in NormalizeText(text)
  {
    NormalizeIsJoinedWords(text);
    WordsAreSolid("", text);
    JoinIsOneLine(Fields(text));
  }

  // ----- the list of answer IDs -----

  ghost predicate CommaFree(ids: seq<string>) { forall i | 0 <= i < |ids| :: ',' !in ids[i] }

  function IndexOf(s: string, sep: char): nat {
    if s == "" || s[0] == sep then 0 else 1 + IndexOf(s[1..], sep)
  }

  lemma {:induction false} IndexOfSeparator(a: string, x: string, sep: char)
    requires sep !in a && (x == "" || x[0] == sep)
    ensures IndexOf(a + x, sep) == |a|
  {
    if a == "" {
      assert a + x == x;
    } else {
      assert (a + x)[1..] == a[1..] + x;
      IndexOfSeparator(a[1..], x, sep);
    }
  }

  /** A text splits in one way only at its first separator. */
  lemma SplitFirst(a: string, x: string, b: string, y: string, sep: char)
    requires sep !in a && (x == "" || x[0] == sep)
    requires sep !in b && (y == "" || y[0] == sep)
    requires a + x == b + y
    ensures a == b && x == y
  {
    IndexOfSeparator(a, x, sep);
    IndexOfSeparator(b, y, sep);
    assert (a + x)[..|a|] == a && (b + y)[..|b|] == b;
    assert (a + x)[|a|..] == x && (b + y)[|b|..] == y;
  }

  function RestOfList(ids: seq<string>): string
    requires ids != []
  {
    if |ids| == 1 then "" else "," + Join(ids[1..], ",")
  }

  lemma ListSplits(ids: seq<string>)
    requires ids != []
    ensures Join(ids, ",") == ids[0] + RestOfList(ids)
    ensures |ids| > 1 ==> RestOfList(ids)[0] == ',' && RestOfList(ids)[1..] == Join(ids[1..], ",")
  {
  }

  /** A nonempty list of comma-free IDs can be read back from its joined text. */
  lemma {:induction false} JoinCommasInjective(a: seq<string>, b: seq<string>)
    requires a != [] && b != [] && CommaFree(a) && CommaFree(b)
    requires Join(a, ",") == Join(b, ",")
    ensures a == b
  {
    ListSplits(a);
    ListSplits(b);
    SplitFirst(a[0], RestOfList(a), b[0], RestOfList(b), ',');
    if |a| > 1 {
      JoinCommasInjective(a[1..], b[1..]);
    }
    assert a == [a[0]] + a[1..] && b == [b[0]] + b[1..];
  }

  // ----- the scoring message -----

  function ScoringText(question: string, ids: seq<string>): string {
    "Question: " + NormalizeText(question) +
    if ids == [] then "" else "\nAnswers: " + Join(Sort(LexLeq, ids), ",")
  }

  lemma SameHeadline(a: string, b: string, x: string, y: string)
    requires '\n' !in a && '\n' !in b
    requires x == "" || x[0] == '\n'
    requires y == "" || y[0] == '\n'
    requires "Question: " + a + x == "Question: " + b + y
    ensures a == b && x == y
  {
    assert ("Question: " + a + x)[10..] == a + x && ("Question: " + b + y)[10..] == b + y;
    SplitFirst(a, x, b, y, '\n');
  }

  lemma AnswersTail(x: string, y: string)
    requires "\nAnswers: " + x == "\nAnswers: " + y
    ensures x == y
  {
    assert ("\nAnswers: " + x)[10..] == x && ("\nAnswers: " + y)[10..] == y;
  }

  /** For comma-free answer IDs the scoring text is equal exactly when the questions have the same words and the answers
      the same IDs, each as often. */
  lemma ScoringTextMergesExactly(q: string, ids: seq<string>, q': string, ids': seq<string>)
    requires CommaFree(ids) && CommaFree(ids')
    ensures ScoringText(q, ids) == ScoringText(q', ids') <==>
            Fields(q) == Fields(q') && multiset(ids) == multiset(ids')
  {
    NormalizeMergesExactly(q, q');
    NormalizedIsOneLine(q);
    NormalizedIsOneLine(q');
    LexIsTotalOrder();
    SortPermutation(LexLeq, ids, ids');
    assert ids == [] <==> |multiset(ids)| == 0;
    assert ids' == [] <==> |multiset(ids')| == 0;
    var tail := if ids == [] then "" else "\nAnswers: " + Join(Sort(LexLeq, ids), ",");
    var tail' := if ids' == [] then "" else "\nAnswers: " + Join(Sort(LexLeq, ids'), ",");
    if ScoringText(q, ids) == ScoringText(q', ids') {
      SameHeadline(NormalizeText(q), NormalizeText(q'), tail, tail');
      if ids != [] && ids' != [] {
        AnswersTail(Join(Sort(LexLeq, ids), ","), Join(Sort(LexLeq, ids'), ","));
        SortedCommaFree(ids);
        SortedCommaFree(ids');
        JoinCommasInjective(Sort(LexLeq, ids), Sort(LexLeq, ids'));
      }
    }
  }

  lemma SortedCommaFree(ids: seq<string>)
    requires CommaFree(ids)
    ensures CommaFree(Sort(LexLeq, ids))
  {
    var sorted := Sort(LexLeq, ids);
    forall i | 0 <= i < |sorted| ensures ',' !in sorted[i] {
      assert sorted[i] in multiset(sorted);
      assert sorted[i] in ids;
    }
  }

  // ----- IDs with commas -----

  /** Cut at some comma, the first part of the ID does not come after the rest. */
  ghost predicate Splittable(id: string) {
    exists p :: 0 <= p < |id| && id[p] == ',' && LexLeq(id[..p], id[p + 1..])
  }

  /** Some question with some other multiset of IDs has the same scoring text. */
  ghost predicate Collides(q: string, ids: seq<string>) {
    exists q', ids' :: ScoringText(q, ids) == ScoringText(q', ids') && multiset(ids) != multiset(ids')
  }

  lemma {:induction false} PrefixLeq(a: string, x: string)
    ensures LexLeq(a, a + x)
  {
    if a != "" {
      assert (a + x)[1..] == a[1..] + x;
      PrefixLeq(a[1..], x);
    }
  }

  lemma SortedPair(a: string, b: string)
    requires LexLeq(a, b)
    ensures Sort(LexLeq, [a, b]) == [a, b]
  {
    LexIsTotalOrder();
    SortOfSorted(LexLeq, [a, b]);
  }

  lemma SortedOne(id: string)
    ensures Sort(LexLeq, [id]) == [id]
  {
    LexIsTotalOrder();
    SortOfSorted(LexLeq, [id]);
  }

  lemma JoinPair(a: string, b: string)
    ensures Join([a, b], ",") == a + "," + b
  {
    assert [a, b][1..] == [b];
    assert a + ("," + b) == a + "," + b;
  }

  /** An ID joined from several sorted ones splits at the comma after the first. */
  lemma JoinedSplits(ids: seq<string>)
    requires |ids| >= 2 && Sorted(LexLeq, ids)
    ensures Splittable(Join(ids, ","))
  {
    var id, p := Join(ids, ","), |ids[0]|;
    ListSplits(ids);
    assert id[..p] == ids[0] && id[p..] == RestOfList(ids);
    assert id[p] == ',' && id[p + 1..] == RestOfList(ids)[1..] == Join(ids[1..], ",");
    ListSplits(ids[1..]);
    PrefixLeq(ids[1], RestOfList(ids[1..]));
    LexTransitive(ids[0], ids[1], Join(ids[1..], ","));
  }

  /** Two IDs in order have the text of the one ID they join to. */
  lemma PairText(q: string, a: string, b: string)
    requires LexLeq(a, b)
    ensures ScoringText(q, [a, b]) == ScoringText(q, [a + "," + b])
  {
    SortedPair(a, b);
    JoinPair(a, b);
    SortedOne(a + "," + b);
  }

  lemma DifferentSizes(a: seq<string>, b: seq<string>)
    requires |a| != |b|
    ensures multiset(a) != multiset(b)
  {
    assert |multiset(a)| == |a| && |multiset(b)| == |b|;
  }

  lemma PairCollides(q: string, a: string, b: string)
    requires LexLeq(a, b)
    ensures Collides(q, [a + "," + b])
  {
    PairText(q, a, b);
    DifferentSizes([a + "," + b], [a, b]);
  }

  lemma SplitCollides(q: string, id: string)
    requires Splittable(id)
    ensures Collides(q, [id])
  {
    var p :| 0 <= p < |id| && id[p] == ',' && LexLeq(id[..p], id[p + 1..]);
    assert id[..p] + "," + id[p + 1..] == id;
    PairCollides(q, id[..p], id[p + 1..]);
  }

  lemma JoinOfOne(ids: seq<string>)
    requires |ids| == 1
    ensures multiset(ids) == multiset([Join(ids, ",")])
  {
    assert ids == [ids[0]];
  }

  /** Equal texts come from equal joined lists, unless both lists are empty. */
  lemma SameTextSameList(q: string, ids: seq<string>, q': string, ids': seq<string>)
    requires ids != [] && ScoringText(q, ids) == ScoringText(q', ids')
    ensures ids' != [] && Join(Sort(LexLeq, ids), ",") == Join(Sort(LexLeq, ids'), ",")
  {
    NormalizedIsOneLine(q);
    NormalizedIsOneLine(q');
    var list, list' := Join(Sort(LexLeq, ids), ","), Join(Sort(LexLeq, ids'), ",");
    SameHeadline(NormalizeText(q), NormalizeText(q'), "\nAnswers: " + list,
                 if ids' == [] then "" else "\nAnswers: " + list');
    AnswersTail(list, list');
  }

  /** A single answer ID shares its scoring text with another multiset of IDs exactly when some comma in it has no
      smaller text behind it than before it. */
  lemma CommasCollideExactly(q: string, id: string)
    ensures Collides(q, [id]) <==> Splittable(id)
  {
    if Splittable(id) {
      SplitCollides(q, id);
    }
    if Collides(q, [id]) {
      var q', ids' :| ScoringText(q, [id]) == ScoringText(q', ids') && multiset([id]) != multiset(ids');
      SameTextSameList(q, [id], q', ids');
      SortedOne(id);
      var sorted := Sort(LexLeq, ids');
      if |sorted| == 1 {
        JoinOfOne(sorted);
      }
      LexIsTotalOrder();
      SortSorts(LexLeq, ids');
      JoinedSplits(sorted);
    }
  }

  /** Two or more IDs have the text of the one ID they join to. */
  lemma ManyCollide(q: string, ids: seq<string>)
    requires |ids| >= 2
    ensures Collides(q, ids)
  {
    var id := Join(Sort(LexLeq, ids), ",");
    SortedOne(id);
    assert ScoringText(q, ids) == ScoringText(q, [id]);
    DifferentSizes(ids, [id]);
  }

  /** Without IDs the text has no answers line, so nothing else has it. */
  lemma NoneCollideWithNone(q: string)
    ensures !Collides(q, [])
  {
    forall q', ids' | ids' != [] ensures ScoringText(q, []) != ScoringText(q', ids') {
      if ScoringText(q, []) == ScoringText(q', ids') {
        SameTextSameList(q', ids', q, []);
      }
    }
  }

  /** Which lists of IDs share their text with another multiset, when IDs may be any text: all lists of two or more, and
      of the single IDs those that split. Comma-free IDs are what makes the text unambiguous. */
  lemma CollisionsExactly(q: string, ids: seq<string>)
    ensures Collides(q, ids) <==> |ids| >= 2 || (|ids| == 1 && Splittable(ids[0]))
  {
    if |ids| >= 2 {
      ManyCollide(q, ids);
    } else if |ids| == 1 {
      CommasCollideExactly(q, ids[0]);
      assert ids == [ids[0]];
    } else {
      NoneCollideWithNone(q);
    }
  }

  /** "a,b" is such an ID: it has the text of the two IDs "a" and "b". */
  lemma CommasCollide()
    ensures ScoringText("q", ["a,b"]) == ScoringText("q", ["a", "b"])
    ensures multiset(["a,b"]) != multiset(["a", "b"])
  {
    assert LexLeq("a", "b");
    PairText("q", "a", "b");
    assert "a" + "," + "b" == "a,b";
    DifferentSizes(["a,b"], ["a", "b"]);
  }

  /** "b,a" has a comma but shares its text with no other IDs. */
  lemma CommaAlone(q: string)
    ensures !Collides(q, ["b,a"])
  {
    CommasCollideExactly(q, "b,a");
    assert "b,a"[..1] == "b" && "b,a"[2..] == "a" && !LexLeq("b", "a");
  }
}
