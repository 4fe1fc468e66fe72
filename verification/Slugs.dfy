/** Slugs: how a name becomes one, which ones the validator accepts, and numbered candidates. */
module Slugs {
  import opened Common

  // ----- character classes -----

  predicate IsLower(c: char) { 'a' <= c <= 'z' }

  predicate IsUpper(c: char) { 'A' <= c <= 'Z' }

  predicate IsDigit(c: char) { '0' <= c <= '9' }

  /** `\w` on ASCII text. */
  predicate IsWord(c: char) { IsLower(c) || IsUpper(c) || IsDigit(c) || c == '_' }

  /** `\s` on ASCII text. */
  predicate IsAsciiSpace(c: char) {
    9 <= c as int <= 13 || 28 <= c as int <= 32
  }

  /** What Python's `strip()` removes. */
  predicate IsSpace(c: char) {
    var n := c as int;
    || IsAsciiSpace(c) || n == 0x85 || n == 0xA0 || n == 0x1680 || 0x2000 <= n <= 0x200A
    || n == 0x2028 || n == 0x2029 || n == 0x202F || n == 0x205F || n == 0x3000
  }

  function Lower(c: char): char {
    if IsUpper(c) then (c as int + 32) as char else c
  }

  /** Theorem: the classes and the lower case, in plain ASCII. */
  lemma CharacterClasses(c: char)
    ensures IsWord(c) <==> 'a' <= c <= 'z' || 'A' <= c <= 'Z' || '0' <= c <= '9' || c == '_'
    ensures IsAsciiSpace(c) <==> '\t' <= c <= '\r' || 28 <= c as int <= 31 || c == ' '
    ensures Lower(c) as int == if 'A' <= c <= 'Z' then c as int + 32 else c as int
  {
  }

  // ----- _slugify -----

  predicate IsSeparator(c: char) { c == '-' || IsAsciiSpace(c) }

  /** ASCII only, lower case, and nothing but word characters, blanks and dashes. */
  function Cleaned(s: string): string {
    if s == "" then ""
    else
      var c := s[|s| - 1];
      var front := Cleaned(s[..|s| - 1]);
      if IsWord(c) || IsSeparator(c) then front + [Lower(c)] else front
  }

  /** Every run of separators becomes one dash. */
  function Collapsed(s: string): string {
    if s == "" then ""
    else
      var c := s[|s| - 1];
      var front := Collapsed(s[..|s| - 1]);
      if !IsSeparator(c) then front + [c]
      else if front != "" && front[|front| - 1] == '-' then front
      else front + "-"
  }

  function StripLeft(s: string): string {
    if s != "" && s[0] == '-' then StripLeft(s[1..]) else s
  }

  function StripRight(s: string): string {
    if s != "" && s[|s| - 1] == '-' then StripRight(s[..|s| - 1]) else s
  }

  function Slugify(name: string): string {
    StripRight(StripLeft(Collapsed(Cleaned(name))))
  }

  /** The word characters of a text, in order and in lower case. */
  function WordsOf(s: string): string {
    if s == "" then ""
    else
      var c := s[|s| - 1];
      WordsOf(s[..|s| - 1]) + if IsWord(c) then [Lower(c)] else ""
  }

  // ----- the shape of a slug -----

  predicate SlugOrUnderscore(c: char) { IsLower(c) || IsDigit(c) || c == '-' || c == '_' }

  ghost predicate NoDoubleDash(s: string) {
    forall i :: 0 <= i < |s| - 1 ==> !(s[i] == '-' && s[i + 1] == '-')
  }

  predicate NoEdgeDash(s: string) {
    s == "" || (s[0] != '-' && s[|s| - 1] != '-')
  }

  ghost predicate Canonical(s: string) {
    (forall i :: 0 <= i < |s| ==> SlugOrUnderscore(s[i])) && NoDoubleDash(s) && NoEdgeDash(s)
  }

  lemma {:induction false} CleanedShape(s: string)
    ensures forall i :: 0 <= i < |Cleaned(s)| ==> SlugOrUnderscore(Cleaned(s)[i]) || IsAsciiSpace(Cleaned(s)[i])
    ensures WordsOf(Cleaned(s)) == WordsOf(s)
  {
    if s != "" {
      CleanedShape(s[..|s| - 1]);
      var c := s[|s| - 1];
      if IsWord(c) || IsSeparator(c) {
        var front := Cleaned(s[..|s| - 1]);
        assert (front + [Lower(c)])[..|front|] == front;
      }
    }
  }

  lemma {:induction false} CollapsedShape(s: string)
    requires forall i :: 0 <= i < |s| ==> SlugOrUnderscore(s[i]) || IsAsciiSpace(s[i])
    ensures forall i :: 0 <= i < |Collapsed(s)| ==> SlugOrUnderscore(Collapsed(s)[i])
    ensures NoDoubleDash(Collapsed(s))
    ensures WordsOf(Collapsed(s)) == WordsOf(s)
  {
    if s != "" {
      var front, c := Collapsed(s[..|s| - 1]), s[|s| - 1];
      CollapsedShape(s[..|s| - 1]);
      if !IsSeparator(c) {
        assert (front + [c])[..|front|] == front;
      } else {
        assert (front + "-")[..|front|] == front;
      }
    }
  }

  lemma {:induction false} StripShape(s: string)
    requires (forall i :: 0 <= i < |s| ==> SlugOrUnderscore(s[i])) && NoDoubleDash(s)
    ensures Canonical(StripRight(StripLeft(s)))
    ensures WordsOf(StripRight(StripLeft(s))) == WordsOf(s)
  {
    StripLeftShape(s);
    StripRightShape(StripLeft(s));
  }

  lemma {:induction false} StripLeftShape(s: string)
    requires (forall i :: 0 <= i < |s| ==> SlugOrUnderscore(s[i])) && NoDoubleDash(s)
    ensures var w := StripLeft(s);
      && (forall i :: 0 <= i < |w| ==> SlugOrUnderscore(w[i])) && NoDoubleDash(w)
      && (w != "" ==> w[0] != '-')
      && WordsOf(w) == WordsOf(s)
  {
    if s != "" && s[0] == '-' {
      StripLeftShape(s[1..]);
      WordsOfDashFirst(s);
    }
  }

  lemma {:induction false} WordsOfDashFirst(s: string)
    requires s != "" && s[0] == '-'
    ensures WordsOf(s[1..]) == WordsOf(s)
  {
    if |s| == 1 {
      assert s[..0] == "";
    } else {
      var n := |s| - 1;
      WordsOfDashFirst(s[..n]);
      assert s[1..][..n - 1] == s[..n][1..];
    }
  }

  lemma {:induction false} StripRightShape(s: string)
    requires (forall i :: 0 <= i < |s| ==> SlugOrUnderscore(s[i])) && NoDoubleDash(s)
    requires s != "" ==> s[0] != '-'
    ensures Canonical(StripRight(s))
    ensures WordsOf(StripRight(s)) == WordsOf(s)
  {
    if s != "" && s[|s| - 1] == '-' {
      StripRightShape(s[..|s| - 1]);
    }
  }

  /** Theorem: a slug has only lower-case letters, digits, underscores and single inner dashes, and it keeps exactly the
      word characters of the name, in order. */
  lemma SlugifyShape(name: string)
    ensures Canonical(Slugify(name))
    ensures WordsOf(Slugify(name)) == WordsOf(name)
  {
    CleanedShape(name);
    CollapsedShape(Cleaned(name));
    StripShape(Collapsed(Cleaned(name)));
  }

  lemma {:induction false} CanonicalIsFixed(s: string)
    requires (forall i :: 0 <= i < |s| ==> SlugOrUnderscore(s[i])) && NoDoubleDash(s)
    ensures Cleaned(s) == s && Collapsed(s) == s
  {
    if s != "" {
      CanonicalIsFixed(s[..|s| - 1]);
      assert s == s[..|s| - 1] + [s[|s| - 1]];
    }
  }

  /** Theorem: slugifying a slug changes nothing. */
  lemma SlugifyIdempotent(name: string)
    ensures Slugify(Slugify(name)) == Slugify(name)
  {
    SlugifyShape(name);
    CanonicalIsFixed(Slugify(name));
  }

  // ----- words and gaps -----

  predicate IsWordText(s: string) { s != "" && forall c :: c in s ==> IsWord(c) }

  predicate IsGap(s: string) { forall c :: c in s ==> c == '-' || IsAsciiSpace(c) }

  function LowerAll(s: string): string { seq(|s|, i requires 0 <= i < |s| => Lower(s[i])) }

  function LowerWords(words: seq<string>): seq<string> { seq(|words|,
                      i requires 0 <= i < |words| => LowerAll(words[i])) }

  /** w0 g0 w1 g1 ... wn. */
  function Spaced(words: seq<string>, gaps: seq<string>): string
    requires |words| == |gaps| + 1
  {
    if gaps == [] then words[0]
    else
      var n := |gaps|;
      Spaced(words[..n], gaps[..n - 1]) + gaps[n - 1] + words[n]
  }

  lemma {:induction false} CleanedConcat(a: string, b: string)
    ensures Cleaned(a + b) == Cleaned(a) + Cleaned(b)
  {
    if b == "" {
      assert a + b == a;
    } else {
      CleanedConcat(a, b[..|b| - 1]);
      assert (a + b)[..|a + b| - 1] == a + b[..|b| - 1];
    }
  }

  /** Nothing is dropped from words and gaps. */
  lemma {:induction false} CleanedIsLower(s: string)
    requires forall c :: c in s ==> IsWord(c) || IsSeparator(c)
    ensures Cleaned(s) == LowerAll(s)
  {
    if s != "" {
      CleanedIsLower(s[..|s| - 1]);
    }
  }

  lemma CollapsedLast(front: string, c: char)
    ensures !IsSeparator(c) ==> Collapsed(front + [c]) == Collapsed(front) + [c]
    ensures IsSeparator(c) ==> Collapsed(front + [c]) == Dashed(Collapsed(front))
  {
    hide IsSeparator;
    var w := front + [c];
    assert w[..|w| - 1] == front && w[|w| - 1] == c;
  }

  function Dashed(x: string): string { if x != "" && x[|x| - 1] == '-' then x else x + "-" }

  lemma {:induction false} CollapsedWord(front: string, w: string)
    requires forall c :: c in w ==> !IsSeparator(c)
    ensures Collapsed(front + w) == Collapsed(front) + w
  {
    hide Collapsed, IsSeparator;
    if w == "" {
      assert front + w == front;
    } else {
      var more, last := w[..|w| - 1], w[|w| - 1];
      assert w == more + [last] && front + w == (front + more) + [last];
      CollapsedWord(front, more);
      CollapsedLast(front + more, last);
    }
  }

  lemma {:induction false} CollapsedGap(front: string, g: string)
    requires g != "" && forall c :: c in g ==> IsSeparator(c)
    requires Collapsed(front) == "" || Collapsed(front)[|Collapsed(front)| - 1] != '-'
    ensures Collapsed(front + g) == Collapsed(front) + "-"
  {
    hide Collapsed, IsSeparator;
    var more, last := g[..|g| - 1], g[|g| - 1];
    assert g == more + [last] && front + g == (front + more) + [last];
    CollapsedLast(front + more, last);
    if more == "" {
      assert front + more == front;
    } else {
      CollapsedGap(front, more);
    }
  }

  lemma LowerText(s: string)
    ensures forall c :: c in s && IsWord(c) ==> Lower(c) != '-' && !IsSeparator(Lower(c)) && IsWord(Lower(c))
    ensures forall c :: c in s && IsSeparator(c) ==> Lower(c) == c
  {
  }

  lemma {:induction false} JoinAppend(parts: seq<string>, x: string, sep: string)
    requires parts != []
    ensures Join(parts + [x], sep) == Join(parts, sep) + sep + x
  {
    if |parts| == 1 {
      assert (parts + [x])[1..] == [x];
    } else {
      JoinAppend(parts[1..], x, sep);
      assert (parts + [x])[1..] == parts[1..] + [x];
    }
  }

  /** A lower-cased word after a text that collapsed to nothing or to a closing dash. */
  lemma WordAfter(front: string, w: string)
    requires IsWordText(w)
    ensures Collapsed(Cleaned(front + w)) == Collapsed(Cleaned(front)) + LowerAll(w)
    ensures var x := LowerAll(w); x != "" && x[|x| - 1] != '-' && x[0] != '-'
  {
    hide Cleaned, Collapsed;
    CleanedConcat(front, w);
    CleanedIsLower(w);
    LowerText(w);
    assert forall i :: 0 <= i < |w| ==> w[i] in w;
    CollapsedWord(Cleaned(front), LowerAll(w));
  }

  lemma GapAfter(front: string, g: string)
    requires IsGap(g) && g != ""
    requires var c := Collapsed(Cleaned(front)); c == "" || c[|c| - 1] != '-'
    ensures Collapsed(Cleaned(front + g)) == Collapsed(Cleaned(front)) + "-"
  {
    hide Cleaned, Collapsed;
    CleanedConcat(front, g);
    CleanedIsLower(g);
    LowerText(g);
    assert forall i :: 0 <= i < |g| ==> g[i] in g;
    assert LowerAll(g) == g;
    CollapsedGap(Cleaned(front), g);
  }

  /** What the collapsed text looks like before the outer dashes are stripped. */
  lemma {:induction false} CollapsedWords(lead: string, words: seq<string>, gaps: seq<string>)
    requires |words| == |gaps| + 1 && IsGap(lead)
    requires forall k :: 0 <= k < |words| ==> IsWordText(words[k])
    requires forall k :: 0 <= k < |gaps| ==> IsGap(gaps[k]) && gaps[k] != ""
    ensures Collapsed(Cleaned(lead + Spaced(words, gaps)))
         == (if lead == "" then "" else "-") + Join(LowerWords(words), "-")
    ensures var j := Join(LowerWords(words), "-"); j != "" && j[0] != '-' && j[|j| - 1] != '-'
  {
    hide Cleaned, Collapsed, IsWordText, IsGap, LowerAll;
    var n := |gaps|;
    if n == 0 {
      LeadingGap(lead);
      WordAfter(lead, words[0]);
      assert LowerWords(words) == [LowerAll(words[0])];
    } else {
      var front := lead + Spaced(words[..n], gaps[..n - 1]);
      CollapsedWords(lead, words[..n], gaps[..n - 1]);
      GapAfter(front, gaps[n - 1]);
      WordAfter(front + gaps[n - 1], words[n]);
      assert lead + Spaced(words, gaps) == front + gaps[n - 1] + words[n];
      assert LowerWords(words) == LowerWords(words[..n]) + [LowerAll(words[n])];
      var x, front' := LowerAll(words[n]), Join(LowerWords(words[..n]), "-");
      JoinAppend(LowerWords(words[..n]), x, "-");
      assert (front' + "-" + x)[|front' + "-" + x| - 1] == x[|x| - 1];
    }
  }

  lemma LeadingGap(lead: string)
    requires IsGap(lead)
    ensures Collapsed(Cleaned(lead)) == if lead == "" then "" else "-"
  {
    if lead != "" {
      GapAfter("", lead);
      assert "" + lead == lead;
    }
  }

  lemma StripDashes(before: bool, s: string, after: bool)
    requires s != "" && s[0] != '-' && s[|s| - 1] != '-'
    ensures StripRight(StripLeft((if before then "-" else "") + s + (if after then "-" else ""))) == s
  {
    hide StripLeft, StripRight;
    var t := s + if after then "-" else "";
    assert (if before then "-" else "") + s + (if after then "-" else "") == (if before then "-" else "") + t;
    StripOneLeft(before, t);
    StripOneRight(s, after);
  }

  lemma StripOneLeft(before: bool, t: string)
    requires t != "" && t[0] != '-'
    ensures StripLeft((if before then "-" else "") + t) == t
  {
    if before {
      assert ("-" + t)[1..] == t;
    } else {
      assert "" + t == t;
    }
  }

  lemma StripOneRight(s: string, after: bool)
    requires s != "" && s[|s| - 1] != '-'
    ensures StripRight(s + (if after then "-" else "")) == s
  {
    if after {
      assert (s + "-")[..|s|] == s;
    } else {
      assert s + "" == s;
    }
  }

  /** Theorem: the slug of some words with dashes and blanks between them, and possibly around them, is the words in
      lower case joined by single dashes. */
  lemma SlugOfWords(lead: string, words: seq<string>, gaps: seq<string>, trail: string)
    requires |words| == |gaps| + 1 && IsGap(lead) && IsGap(trail)
    requires forall k :: 0 <= k < |words| ==> IsWordText(words[k])
    requires forall k :: 0 <= k < |gaps| ==> IsGap(gaps[k]) && gaps[k] != ""
    ensures Slugify(lead + Spaced(words, gaps) + trail) == Join(LowerWords(words), "-")
  {
    hide Cleaned, Collapsed, Spaced, IsWordText, Join, StripLeft, StripRight, LowerAll, IsGap;
    var text := lead + Spaced(words, gaps);
    CollapsedWords(lead, words, gaps);
    if trail == "" {
      assert text + trail == text;
    } else {
      GapAfter(text, trail);
    }
    var j := Join(LowerWords(words), "-");
    StripDashes(lead != "", j, trail != "");
    assert Collapsed(Cleaned(text + trail)) == (if lead != "" then "-" else "") + j + (if trail != "" then "-" else "");
  }

  /** Theorem: and a character that is neither a word character nor a dash or blank is dropped without a trace. */
  lemma OtherCharactersVanish(a: string, c: char, b: string)
    requires !IsWord(c) && c != '-' && !IsAsciiSpace(c)
    ensures Slugify(a + [c] + b) == Slugify(a + b)
  {
    CleanedConcat(a + [c], b);
    CleanedConcat(a, [c]);
    CleanedConcat(a, b);
    assert [c][..0] == "";
  }

  // ----- acceptance -----

  predicate SlugChar(c: char) { IsLower(c) || IsDigit(c) || c == '-' }

  predicate AllSlugChars(s: string) { forall c :: c in s ==> SlugChar(c) }

  /** `^[a-z0-9-]+$` with Python's `$`, which also matches before a final newline. */
  predicate Accepted(s: string) {
    || (s != "" && AllSlugChars(s))
    || (|s| >= 2 && s[|s| - 1] == '\n' && AllSlugChars(s[..|s| - 1]))
  }

  /** The accepted strings are the non-empty runs of slug characters, with or without one newline after them. */
  lemma AcceptedMeans(s: string)
    ensures Accepted(s) <==> exists run: string, tail: string ::
              s == run + tail && run != "" && AllSlugChars(run) && tail in {"", "\n"}
  {
    if Accepted(s) {
      if AllSlugChars(s) {
        assert s == s + "";
      } else {
        var run := s[..|s| - 1];
        assert s == run + "\n";
      }
    }
    forall run: string, tail: string | s == run + tail && run != "" && AllSlugChars(run) && tail in {"", "\n"}
      ensures Accepted(s)
    {
      if tail == "\n" {
        assert s[..|s| - 1] == run;
      } else {
        assert s == run;
      }
    }
  }

  predicate IsMissing(s: string) { forall c :: c in s ==> IsSpace(c) }

  /** Blank texts count as missing, like the empty one; anything else does not. */
  lemma MissingMeans(s: string)
    ensures IsMissing(s) <==> forall c :: c in s ==>
              || c == ' ' || '\t' <= c <= '\r' || 28 <= c as int <= 31 || 8192 <= c as int <= 8202
              || c as int in {133, 160, 5760, 8232, 8233, 8239, 8287, 12288}
  {
  }

  predicate EndsInNewline(s: string) { s != "" && s[|s| - 1] == '\n' }

  lemma {:induction false} WordsOfContents(s: string, c: char)
    requires c == '_' || IsDigit(c) || IsLower(c)
    ensures c in WordsOf(s) <==> exists d :: d in s && IsWord(d) && Lower(d) == c
  {
    if s != "" {
      var n := |s| - 1;
      WordsOfContents(s[..n], c);
      assert s == s[..n] + [s[n]];
    }
  }

  /** Theorem: the slug of a name is accepted exactly when the name has a word character and no underscore. */
  lemma SlugAcceptedIff(name: string)
    ensures Accepted(Slugify(name)) <==> Slugify(name) != "" && '_' !in name
    ensures Slugify(name) == "" <==> forall c :: c in name ==> !IsWord(c)
  {
    SlugifyShape(name);
    var s := Slugify(name);
    WordsOfContents(name, '_');
    WordsOfContents(s, '_');
    if s == "" {
      NoWords(name);
    } else {
      var d := s[0];
      assert d in s;
      WordsOfContents(s, d);
      assert Lower(d) == d;
      WordsOfContents(name, d);
    }
    assert forall c :: c in s ==> SlugOrUnderscore(c);
  }

  lemma {:induction false} NoWords(s: string)
    ensures WordsOf(s) == "" <==> forall c :: c in s ==> !IsWord(c)
  {
    if s != "" {
      var n := |s| - 1;
      NoWords(s[..n]);
      assert s == s[..n] + [s[n]];
    }
  }

  // ----- numbered candidates -----

  function Digit(d: nat): char
    requires d < 10
  {
    ('0' as int + d) as char
  }

  /** Decimal printing of a counter. */
  function Decimal(n: nat): (s: string)
    ensures s != "" && forall c :: c in s ==> IsDigit(c)
  {
    if n < 10 then [Digit(n)] else Decimal(n / 10) + [Digit(n % 10)]
  }

  function ValueOf(s: string): int {
    if s == "" then 0 else 10 * ValueOf(s[..|s| - 1]) + (s[|s| - 1] as int - '0' as int)
  }

  lemma {:induction false} DecimalValue(n: nat)
    ensures ValueOf(Decimal(n)) == n
  {
    if n >= 10 {
      DecimalValue(n / 10);
      assert (Decimal(n / 10) + [Digit(n % 10)])[..|Decimal(n / 10)|] == Decimal(n / 10);
    } else {
      assert [Digit(n)][..0] == "";
    }
  }

  /** base, base-1, base-2, ... */
  function Candidate(base: string, k: nat): string {
    if k == 0 then base else base + "-" + Decimal(k)
  }

  /** Theorem: the numbered candidate is the base, a dash, and the number without leading zeros. */
  lemma CandidateMeans(base: string, k: nat)
    ensures Candidate(base, 0) == base
    ensures k > 0 ==>
      exists digits: string ::
        && Candidate(base, k) == base + "-" + digits && digits != "" && digits[0] != '0'
        && (forall c :: c in digits ==> '0' <= c <= '9') && ValueOf(digits) == k
  {
    if k > 0 {
      DecimalValue(k);
      DecimalDigits(k);
      assert Candidate(base, k) == base + "-" + Decimal(k);
    }
  }

  lemma {:induction false} DecimalDigits(n: nat)
    requires n > 0
    ensures Decimal(n) != "" && Decimal(n)[0] != '0' && forall c :: c in Decimal(n) ==> '0' <= c <= '9'
  {
    if n >= 10 {
      DecimalDigits(n / 10);
    }
  }

  /** Theorem: the candidates of a base are pairwise distinct, because decimal printing is injective. */
  lemma CandidatesDistinct(base: string, j: nat, k: nat)
    requires j != k
    ensures Candidate(base, j) != Candidate(base, k)
  {
    if j != 0 && k != 0 {
      DecimalValue(j);
      DecimalValue(k);
      var prefix := base + "-";
      assert Candidate(base, j)[|prefix|..] == Decimal(j);
      assert Candidate(base, k)[|prefix|..] == Decimal(k);
    }
  }

  /** The first free candidate from k on. Each taken candidate uses up one taken slug, so the search ends within
      |taken| + 1 tries. */
  function Fresh(base: string, k: nat, taken: set<string>): (f: nat)
    ensures k <= f <= k + |taken|
    ensures Candidate(base, f) !in taken
    ensures forall j :: k <= j < f ==> Candidate(base, j) in taken
    decreases |taken|
  {
    if Candidate(base, k) !in taken then k
    else
      var rest := taken - {Candidate(base, k)};
      var f := Fresh(base, k + 1, rest);
      CandidatesDistinct(base, k, f);
      f
  }

  /** The search loop of the script, which both repair passes run. */
  method FindFresh(base: string, start: nat, taken: set<string>) returns (slug: string)
    ensures slug == Candidate(base, Fresh(base, start, taken))
  {
    ghost var free := Fresh(base, start, taken);
    slug := Candidate(base, start);
    var counter := start + 1;
    while slug in taken
      invariant start < counter <= free + 1
      invariant slug == Candidate(base, counter - 1)
      invariant forall j :: start <= j < counter - 1 ==> Candidate(base, j) in taken
      decreases free + 1 - counter
    {
      slug := base + "-" + Decimal(counter);
      counter := counter + 1;
    }
  }
}
