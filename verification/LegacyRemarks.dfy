/** The legacy payment remarks: the scanner for `{seq|amount|method|timestamp|note}` blocks and the splitter. */
module LegacyRemarks {
  import opened Common

  /** Position of the first c, or the length. */
  function IndexOf(s: string, c: char): (i: nat)
    ensures i <= |s|
    ensures forall j :: 0 <= j < i ==> s[j] != c
    ensures i < |s| ==> s[i] == c
  {
    if s == "" then 0 else if s[0] == c then 0 else 1 + IndexOf(s[1..], c)
  }

  /** `re.findall(r'\{([^}]+)\}', s)`: from every opening brace, leftmost first, everything up to the next closing
      brace; an empty pair of braces is no match. */
  function FindAll(s: string): seq<string>
    decreases |s|
  {
    var i := IndexOf(s, '{');
    if i == |s| then []
    else
      var rest := s[i + 1..];
      var j := IndexOf(rest, '}');
      if j == |rest| then []
      else if j == 0 then FindAll(rest)
      else [rest[..j]] + FindAll(rest[j + 1..])
  }

  /** `s.split(c)`. */
  function Split(s: string, c: char): (parts: seq<string>)
    ensures parts != []
    decreases |s|
  {
    var i := IndexOf(s, c);
    if i == |s| then [s] else [s[..i]] + Split(s[i + 1..], c)
  }

  lemma IndexOfUnique(s: string, c: char, i: nat)
    requires i <= |s| && (forall j :: 0 <= j < i ==> s[j] != c) && (i < |s| ==> s[i] == c)
    ensures IndexOf(s, c) == i
  {
  }

  /** Theorem: joining the parts gives the text back, and no part contains the separator. */
  lemma {:induction false} SplitJoin(s: string, c: char)
    ensures Join(Split(s, c), [c]) == s
    ensures forall k :: 0 <= k < |Split(s, c)| ==> c !in Split(s, c)[k]
    decreases |s|
  {
    var i := IndexOf(s, c);
    if i < |s| {
      SplitJoin(s[i + 1..], c);
      assert Split(s, c)[1..] == Split(s[i + 1..], c);
      assert s == s[..i] + [c] + s[i + 1..];
    }
  }

  lemma JoinStep(first: string, parts: seq<string>, sep: string)
    requires parts != []
    ensures Join([first] + parts, sep) == first + sep + Join(parts, sep)
  {
    assert ([first] + parts)[1..] == parts;
  }

  /** Theorem: and splitting a join of separator-free parts gives the parts back. */
  lemma {:induction false} JoinSplit(parts: seq<string>, c: char)
    requires parts != [] && forall k :: 0 <= k < |parts| ==> c !in parts[k]
    ensures Split(Join(parts, [c]), c) == parts
  {
    hide IndexOf, Join;
    if |parts| == 1 {
      assert parts == [parts[0]];
      JoinOne(parts[0], [c]);
      IndexOfUnique(parts[0], c, |parts[0]|);
    } else {
      var first, tail := parts[0], Join(parts[1..], [c]);
      JoinSplit(parts[1..], c);
      assert parts == [first] + parts[1..];
      JoinStep(first, parts[1..], [c]);
      SplitStep(first, tail, c);
    }
  }

  lemma SplitStep(first: string, tail: string, c: char)
    requires c !in first
    ensures Split(first + [c] + tail, c) == [first] + Split(tail, c)
  {
    var s := first + [c] + tail;
    IndexOfUnique(s, c, |first|);
    assert s[..|first|] == first && s[|first| + 1..] == tail;
  }

  /** `s.replace(c, with)`. */
  function Replace(s: string, c: char, with: string): string {
    if s == "" then "" else (if s[0] == c then with else [s[0]]) + Replace(s[1..], c, with)
  }

  lemma ReplaceHead(x: char, s: string, c: char, with: string)
    ensures Replace([x] + s, c, with) == (if x == c then with else [x]) + Replace(s, c, with)
  {
    assert ([x] + s)[1..] == s;
  }

  lemma {:induction false} ReplaceConcat(front: string, c: char, rest: string, with: string)
    requires c !in front
    ensures Replace(front + rest, c, with) == front + Replace(rest, c, with)
  {
    hide Replace;
    if front == "" {
      assert front + rest == rest;
    } else {
      var x, tail := front[0], front[1..];
      assert front == [x] + tail && front + rest == [x] + (tail + rest);
      ReplaceConcat(tail, c, rest, with);
      ReplaceHead(x, tail + rest, c, with);
    }
  }

  lemma NothingToReplace(s: string, c: char, with: string)
    requires c !in s
    ensures Replace(s, c, with) == s
  {
    ReplaceConcat(s, c, "", with);
    assert s + "" == s;
  }

  /** Replacing a character is splitting at it and joining with the replacement. */
  lemma {:induction false} ReplaceIsRejoin(s: string, c: char, with: string)
    ensures Replace(s, c, with) == Join(Split(s, c), with)
    decreases |s|
  {
    hide IndexOf, Join, Replace;
    var i := IndexOf(s, c);
    if i < |s| {
      var front, rest := s[..i], s[i + 1..];
      assert s == front + ([c] + rest);
      ReplaceConcat(front, c, [c] + rest, with);
      ReplaceFirst(c, rest, with);
      ReplaceIsRejoin(rest, c, with);
      JoinStep(front, Split(rest, c), with);
    } else {
      assert s == s + "";
      ReplaceConcat(s, c, "", with);
      ReplaceEmpty(c, with);
      JoinOne(s, with);
    }
  }

  lemma ReplaceEmpty(c: char, with: string)
    ensures Replace("", c, with) == ""
  {
  }

  lemma ReplaceFirst(c: char, rest: string, with: string)
    ensures Replace([c] + rest, c, with) == with + Replace(rest, c, with)
  {
    assert ([c] + rest)[1..] == rest;
  }

  lemma JoinOne(s: string, sep: string)
    ensures Join([s], sep) == s
  {
  }

  // ----- what the scanner finds -----

  predicate BraceFree(s: string) { '{' !in s && '}' !in s }

  /** Texts and braced blocks, alternating. */
  function Embed(texts: seq<string>, blocks: seq<string>): string
    requires |texts| == |blocks| + 1
  {
    if blocks == [] then texts[0]
    else texts[0] + "{" + blocks[0] + "}" + Embed(texts[1..], blocks[1..])
  }

  lemma NoOpening(s: string)
    requires '{' !in s
    ensures FindAll(s) == []
  {
    IndexOfUnique(s, '{', |s|);
  }

  /** The part of a text after its first opening brace. */
  lemma AfterBrace(before: string, rest: string)
    requires '{' !in before
    ensures var s := before + "{" + rest; IndexOf(s, '{') == |before| < |s| && s[|before| + 1..] == rest
  {
    var s := before + "{" + rest;
    IndexOfUnique(s, '{', |before|);
  }

  lemma NoClosing(before: string, rest: string)
    requires '{' !in before && '}' !in rest
    ensures FindAll(before + "{" + rest) == []
  {
    AfterBrace(before, rest);
    IndexOfUnique(rest, '}', |rest|);
  }

  lemma EmptyPair(before: string, rest: string)
    requires '{' !in before && rest != "" && rest[0] == '}'
    ensures FindAll(before + "{" + rest) == FindAll(rest)
  {
    AfterBrace(before, rest);
    IndexOfUnique(rest, '}', 0);
  }

  lemma TakeBlock(before: string, block: string, tail: string)
    requires '{' !in before && block != "" && '}' !in block
    ensures FindAll(before + "{" + (block + "}" + tail)) == [block] + FindAll(tail)
  {
    var rest := block + "}" + tail;
    AfterBrace(before, rest);
    IndexOfUnique(rest, '}', |block|);
    assert rest[..|block|] == block && rest[|block| + 1..] == tail;
  }

  lemma EmbedStep(texts: seq<string>, blocks: seq<string>)
    requires |texts| == |blocks| + 1 && blocks != []
    ensures Embed(texts, blocks) == texts[0] + "{" + (blocks[0] + "}" + Embed(texts[1..], blocks[1..]))
  {
    var tail := Embed(texts[1..], blocks[1..]);
    assert texts[0] + "{" + blocks[0] + "}" + tail == texts[0] + "{" + (blocks[0] + "}" + tail);
  }

  /** Theorem: blocks without a closing brace, embedded in text without an opening one, are found exactly and in
      order. */
  lemma {:induction false} FindAllInverts(texts: seq<string>, blocks: seq<string>)
    requires |texts| == |blocks| + 1
    requires forall k :: 0 <= k < |texts| ==> '{' !in texts[k]
    requires forall k :: 0 <= k < |blocks| ==> blocks[k] != "" && '}' !in blocks[k]
    ensures FindAll(Embed(texts, blocks)) == blocks
  {
    hide FindAll;
    if blocks == [] {
      NoOpening(texts[0]);
    } else {
      FindAllInverts(texts[1..], blocks[1..]);
      EmbedStep(texts, blocks);
      TakeBlock(texts[0], blocks[0], Embed(texts[1..], blocks[1..]));
    }
  }

  /** The text is the blocks, in braces, with stretches in between in which there is nothing to find. */
  ghost predicate Decomposes(texts: seq<string>, blocks: seq<string>, s: string) {
    |texts| == |blocks| + 1 && Embed(texts, blocks) == s && forall k :: 0 <= k < |texts| ==> FindAll(texts[k]) == []
  }

  /** No block is empty or contains a closing brace. */
  lemma {:induction false} FindAllBlocks(s: string)
    ensures forall block :: block in FindAll(s) ==> block != "" && '}' !in block
    decreases |s|
  {
    hide FindAll, IndexOf;
    var i := IndexOf(s, '{');
    if i == |s| {
      NoOpening(s);
    } else {
      var before, rest := s[..i], s[i + 1..];
      assert s == before + "{" + rest;
      var j := IndexOf(rest, '}');
      if j == |rest| {
        NoClosing(before, rest);
      } else if j == 0 {
        EmptyPair(before, rest);
        FindAllBlocks(rest);
      } else {
        assert rest == rest[..j] + "}" + rest[j + 1..];
        TakeBlock(before, rest[..j], rest[j + 1..]);
        FindAllBlocks(rest[j + 1..]);
      }
    }
  }

  /** Theorem: for every text the scanner's answer is a decomposition of the text into blocks and stretches without a
      match. */
  lemma {:induction false} FindAllDecomposes(s: string) returns (texts: seq<string>)
    ensures Decomposes(texts, FindAll(s), s)
    decreases |s|
  {
    hide FindAll, Embed, IndexOf, Decomposes;
    var i := IndexOf(s, '{');
    if i == |s| {
      NoOpening(s);
      texts := NothingFound(s);
    } else {
      var before, rest := s[..i], s[i + 1..];
      assert s == before + "{" + rest;
      var j := IndexOf(rest, '}');
      if j == |rest| {
        NoClosing(before, rest);
        texts := NothingFound(s);
      } else if j == 0 {
        EmptyPair(before, rest);
        texts := FindAllDecomposes(rest);
        texts := JoinStretch(before, rest, texts);
      } else {
        var block, tail := rest[..j], rest[j + 1..];
        assert rest == block + "}" + tail;
        TakeBlock(before, block, tail);
        texts := FindAllDecomposes(tail);
        texts := PrependBlock(before, block, tail, texts);
      }
    }
  }

  lemma NothingFound(s: string) returns (texts: seq<string>)
    requires FindAll(s) == []
    ensures Decomposes(texts, FindAll(s), s)
  {
    texts := [s];
  }

  lemma PrependBlock(before: string, block: string, tail: string, texts: seq<string>) returns (w: seq<string>)
    requires '{' !in before && Decomposes(texts, FindAll(tail), tail)
    ensures Decomposes(w, [block] + FindAll(tail), before + "{" + (block + "}" + tail))
  {
    hide FindAll;
    var blocks := [block] + FindAll(tail);
    w := [before] + texts;
    NoOpening(before);
    assert w[1..] == texts && blocks[1..] == FindAll(tail);
    EmbedStep(w, blocks);
  }

  /** An empty pair of braces joins the stretch before it to the stretch after it. */
  lemma JoinStretch(before: string, rest: string, texts: seq<string>) returns (w: seq<string>)
    requires '{' !in before && rest != "" && rest[0] == '}' && Decomposes(texts, FindAll(rest), rest)
    ensures Decomposes(w, FindAll(rest), before + "{" + rest)
  {
    hide FindAll;
    var blocks := FindAll(rest);
    var first := before + "{" + texts[0];
    w := [first] + texts[1..];
    assert w[1..] == texts[1..];
    FirstStretch(before, rest, texts, blocks);
    if blocks != [] {
      EmbedStep(texts, blocks);
      EmbedStep(w, blocks);
      var more := "{" + (blocks[0] + "}" + Embed(texts[1..], blocks[1..]));
      assert rest == texts[0] + more;
      assert before + "{" + (texts[0] + more) == first + more;
    }
  }

  lemma FirstStretch(before: string, rest: string, texts: seq<string>, blocks: seq<string>)
    requires '{' !in before && rest != "" && rest[0] == '}' && Decomposes(texts, blocks, rest)
    ensures FindAll(before + "{" + texts[0]) == []
  {
    if texts[0] == "" {
      NoClosing(before, "");
    } else {
      assert texts[0][0] == rest[0] by {
        if blocks != [] {
          EmbedStep(texts, blocks);
        }
      }
      EmptyPair(before, texts[0]);
    }
  }

  // ----- records -----

  /** The documented record, as text fields. */
  datatype Record = Record(number: string, amount: string, means: string, timestamp: string, note: string)

  predicate CleanField(s: string) { BraceFree(s) && '|' !in s }

  predicate CleanRecord(r: Record) {
    CleanField(r.number) && CleanField(r.amount) && CleanField(r.means) && CleanField(r.timestamp) && CleanField(r.note)
  }

  function FieldsOf(r: Record): seq<string> { [r.number, r.amount, r.means, r.timestamp, r.note] }

  function BlockOf(r: Record): string { Join(FieldsOf(r), "|") }

  function BlocksOf(rs: seq<Record>): (blocks: seq<string>)
    ensures |blocks| == |rs|
  {
    seq(|rs|, k requires 0 <= k < |rs| => BlockOf(rs[k]))
  }

  lemma BlockShape(r: Record)
    requires CleanRecord(r)
    ensures BlockOf(r) != "" && BraceFree(BlockOf(r))
    ensures Split(BlockOf(r), '|') == FieldsOf(r)
  {
    JoinSplit(FieldsOf(r), '|');
    JoinChars(FieldsOf(r), '|', '{');
    JoinChars(FieldsOf(r), '|', '}');
  }

  /** A join has no character that neither the parts nor the separator have. */
  lemma {:induction false} JoinChars(parts: seq<string>, c: char, x: char)
    requires parts != [] && x != c && forall k :: 0 <= k < |parts| ==> x !in parts[k]
    ensures x !in Join(parts, [c])
    ensures |parts| > 1 ==> Join(parts, [c]) != ""
  {
    if |parts| > 1 {
      JoinChars(parts[1..], c, x);
    }
  }

  /** Theorem: parsing inverts the documented format: records with clean fields, embedded in text without opening
      braces, come back field by field and in order. */
  lemma ParsingInvertsFormat(texts: seq<string>, rs: seq<Record>)
    requires |texts| == |rs| + 1 && forall k :: 0 <= k < |texts| ==> '{' !in texts[k]
    requires forall k :: 0 <= k < |rs| ==> CleanRecord(rs[k])
    ensures var found := FindAll(Embed(texts, BlocksOf(rs)));
      |found| == |rs| && forall k :: 0 <= k < |rs| ==> Split(found[k], '|') == FieldsOf(rs[k])
  {
    forall k | 0 <= k < |rs|
      ensures BlocksOf(rs)[k] != "" && BraceFree(BlocksOf(rs)[k]) && Split(BlocksOf(rs)[k], '|') == FieldsOf(rs[k])
    {
      BlockShape(rs[k]);
    }
    FindAllInverts(texts, BlocksOf(rs));
  }
}
