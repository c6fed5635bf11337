/** Articles' texts: the derived search text, its upkeep under edits, and keyword matching on it. */
module Documents {
  import opened Basics
  import opened Signature

  // ---------- the document ----------

  datatype Doc = Doc(title: string, content: string, rawText: string)

  /** A partial edit: fields that are absent stay as they are. */
  datatype Change = Change(title: Option<string>, content: Option<string>)

  function RawTextOf(o: Oracle, title: string, content: string): string {
    title + "\n" + o.stripTags(content)
  }

  predicate UpToDate(o: Oracle, d: Doc) {
    d.rawText == RawTextOf(o, d.title, d.content)
  }

  function NewDoc(o: Oracle, title: string, content: string): Doc {
    Doc(title, content, RawTextOf(o, title, content))
  }

  function WithTitle(o: Oracle, d: Doc, title: Option<string>): Doc {
    match title
    case None => d
    case Some(t) => d.(title := t, rawText := RawTextOf(o, t, d.content))
  }

  function WithContent(o: Oracle, d: Doc, content: Option<string>): Doc {
    match content
    case None => d
    case Some(c) => d.(content := c, rawText := RawTextOf(o, d.title, c))
  }

  function Edited(o: Oracle, d: Doc, c: Change): Doc {
    WithContent(o, WithTitle(o, d, c.title), c.content)
  }

  function EditedAll(o: Oracle, d: Doc, changes: seq<Change>): Doc {
    if changes == [] then d
    else Edited(o, EditedAll(o, d, changes[..|changes| - 1]), changes[|changes| - 1])
  }

  /** The last value given, or the first one if none was. */
  function Latest(initial: string, given: seq<Option<string>>): string {
    if given == [] then initial
    else match given[|given| - 1]
      case Some(v) => v
      case None => Latest(initial, given[..|given| - 1])
  }

  function Titles(changes: seq<Change>): seq<Option<string>> {
    seq(|changes|, i requires 0 <= i < |changes| => changes[i].title)
  }

  function Contents(changes: seq<Change>): seq<Option<string>> {
    seq(|changes|, i requires 0 <= i < |changes| => changes[i].content)
  }

  /**
   However a document came about, it is the one that would be created from its latest title and
   content; in particular the search text is never stale.
   */
  lemma {:induction false} NeverStale(o: Oracle, title: string, content: string, changes: seq<Change>)
    ensures EditedAll(o, NewDoc(o, title, content), changes)
      == NewDoc(o, Latest(title, Titles(changes)), Latest(content, Contents(changes)))
    ensures EditedAll(o, NewDoc(o, title, content), changes).rawText
      == Latest(title, Titles(changes)) + "\n" + o.stripTags(Latest(content, Contents(changes)))
  {
    if changes != [] {
      var before := changes[..|changes| - 1];
      NeverStale(o, title, content, before);
      assert Titles(changes)[..|changes| - 1] == Titles(before);
      assert Contents(changes)[..|changes| - 1] == Contents(before);
    }
  }

  /** `models.Document` with its setters. */
  class Document {
    const oracle: Oracle
    var title: string
    var content: string
    var rawText: string

    function Value(): Doc
      reads this
    {
      Doc(title, content, rawText)
    }

    constructor New(oracle: Oracle, title: string, content: string)
      ensures Value() == NewDoc(oracle, title, content) && this.oracle == oracle
      ensures this.title == title && this.content == content && rawText == title + "\n" + oracle.stripTags(content)
    {
      this.oracle := oracle;
      this.title, this.content, rawText := title, content, "";
      new;
      ReloadRawText();
    }

    /** A document as it was read from its database row. */
    constructor Load(oracle: Oracle, stored: Doc)
      ensures Value() == stored && this.oracle == oracle
    {
      this.oracle := oracle;
      title, content, rawText := stored.title, stored.content, stored.rawText;
    }

    method ReloadRawText()
      modifies this`rawText
      ensures rawText == title + "\n" + oracle.stripTags(content)
    {
      var rawContent := oracle.stripTags(content);
      rawText := title + "\n" + rawContent;
    }

    method SetTitleIfPresent(title: Option<string>)
      modifies this`title, this`rawText
      ensures Value() == WithTitle(oracle, old(Value()), title)
      ensures title.None? ==> Value() == old(Value())
      ensures title.Some? ==> this.title == title.value && rawText == this.title + "\n" + oracle.stripTags(content)
    {
      match title {
        case None =>
        case Some(t) =>
          this.title := t;
          ReloadRawText();
      }
    }

    method SetContentIfPresent(content: Option<string>)
      modifies this`content, this`rawText
      ensures Value() == WithContent(oracle, old(Value()), content)
      ensures content.None? ==> Value() == old(Value())
      ensures content.Some? ==> this.content == content.value && rawText == title + "\n" + oracle.stripTags(this.content)
    {
      match content {
        case None =>
        case Some(c) =>
          this.content := c;
          ReloadRawText();
      }
    }
  }

  // ---------- LIKE ----------

  /** The LIKE predicate of SQL-92 section 8.5 with backslash as escape character, as MySQL has it. */
  predicate Like(pattern: string, text: string)
    decreases |pattern| + |text|
  {
    if pattern == "" then text == ""
    else if pattern[0] == '%' then Like(pattern[1..], text) || (text != "" && Like(pattern, text[1..]))
    else if text == "" then false
    else if pattern[0] == '\\' && |pattern| > 1 then pattern[1] == text[0] && Like(pattern[2..], text[1..])
    else (pattern[0] == '_' || pattern[0] == text[0]) && Like(pattern[1..], text[1..])
  }

  predicate Plain(word: string) {
    '%' !in word && '_' !in word && '\\' !in word
  }

  predicate OccursAt(text: string, word: string, i: nat) {
    i + |word| <= |text| && text[i..i + |word|] == word
  }

  ghost predicate Contains(text: string, word: string) {
    exists i: nat :: OccursAt(text, word, i)
  }

  lemma {:induction false} AnyTailMatches(text: string)
    ensures Like("%", text)
  {
    if text != "" {
      AnyTailMatches(text[1..]);
    }
  }

  /**
   The pattern writes the word out: a backslash may stand before any character, and must stand before the
   wildcards and the backslash.
   */
  predicate Quotes(pattern: string, word: string) {
    if pattern == "" then word == ""
    else if word == "" then false
    else if pattern[0] == '\\' then |pattern| > 1 && pattern[1] == word[0] && Quotes(pattern[2..], word[1..])
    else Plain(pattern[..1]) && pattern[0] == word[0] && Quotes(pattern[1..], word[1..])
  }

  lemma {:induction false} QuotedPrefixMatches(pattern: string, word: string, text: string)
    requires Quotes(pattern, word)
    ensures Like(pattern + "%", text) <==> word <= text
  {
    if pattern == "" {
      AnyTailMatches(text);
      assert pattern + "%" == "%";
    } else if text != "" {
      var n := if pattern[0] == '\\' then 2 else 1;
      QuotedPrefixMatches(pattern[n..], word[1..], text[1..]);
      assert (pattern + "%")[n..] == pattern[n..] + "%";
      PrefixStep(word, text);
    }
  }

  lemma PrefixStep(word: string, text: string)
    requires word != "" && text != ""
    ensures word <= text <==> word[0] == text[0] && word[1..] <= text[1..]
  {
    if word[0] == text[0] && word[1..] <= text[1..] {
      assert word == [word[0]] + word[1..] && text == [text[0]] + text[1..];
    }
  }

  /** However a word is escaped, `%word%` matches exactly the texts that contain it. */
  lemma {:induction false} QuotedLikeIsContains(pattern: string, word: string, text: string)
    requires Quotes(pattern, word)
    ensures Like("%" + pattern + "%", text) <==> Contains(text, word)
    decreases |text|
  {
    assert ("%" + pattern + "%")[1..] == pattern + "%";
    QuotedPrefixMatches(pattern, word, text);
    if word <= text {
      assert OccursAt(text, word, 0);
    } else if text != "" {
      QuotedLikeIsContains(pattern, word, text[1..]);
      if Contains(text, word) {
        var i: nat :| OccursAt(text, word, i);
        OccursShifted(text, word, i);
      }
      if Contains(text[1..], word) {
        var i: nat :| OccursAt(text[1..], word, i);
        OccursShifted(text, word, i + 1);
      }
    }
  }

  lemma OccursShifted(text: string, word: string, i: nat)
    requires text != "" && !(word <= text && i == 0)
    ensures OccursAt(text, word, i) <==> i > 0 && OccursAt(text[1..], word, i - 1)
  {
    if 0 < i && i + |word| <= |text| {
      var here, there := text[i..i + |word|], text[1..][i - 1..i - 1 + |word|];
      assert |here| == |there| && forall j | 0 <= j < |word| :: here[j] == there[j];
    }
  }

  lemma {:induction false} PlainIsQuoted(word: string)
    requires Plain(word)
    ensures Quotes(word, word)
  {
    if word != "" {
      PlainIsQuoted(word[1..]);
    }
  }

  /** For a word without wildcards, `%word%` matches exactly the texts that contain the word. */
  lemma LikeIsContains(word: string, text: string)
    requires Plain(word)
    ensures Like("%" + word + "%", text) <==> Contains(text, word)
  {
    PlainIsQuoted(word);
    QuotedLikeIsContains(word, word, text);
  }

  /** An underscore stands for any one character. */
  lemma {:induction false} UnderscoresCount(n: nat, text: string)
    ensures Like(seq(n, i => '_'), text) <==> |text| == n
  {
    if n > 0 && text != "" {
      UnderscoresCount(n - 1, text[1..]);
      assert seq(n, i => '_')[1..] == seq(n - 1, i => '_');
    }
  }

  /** A word of one line occurs in a search text exactly if it occurs in the title or in the stripped content. */
  lemma WordsOfEitherPart(title: string, body: string, word: string)
    requires '\n' !in word
    ensures Contains(title + "\n" + body, word) <==> Contains(title, word) || Contains(body, word)
  {
    var text := title + "\n" + body;
    assert text == title + ("\n" + body) && text == (title + "\n") + body;
    if Contains(title, word) {
      var i: nat :| OccursAt(title, word, i);
      OccursInFront(title, "\n" + body, word, i);
      assert OccursAt(text, word, i);
    }
    if Contains(body, word) {
      var i: nat :| OccursAt(body, word, i);
      OccursBehind(title + "\n", body, word, i);
      assert OccursAt(text, word, |title| + 1 + i);
    }
    if Contains(text, word) {
      var i: nat :| OccursAt(text, word, i);
      if i + |word| <= |title| {
        OccursInFront(title, "\n" + body, word, i);
      } else if i > |title| {
        OccursBehind(title + "\n", body, word, i - |title| - 1);
      } else {
        CharacterOccurs(text, word, i, |title|);
      }
    }
  }

  lemma OccursInFront(front: string, back: string, word: string, i: nat)
    requires i + |word| <= |front|
    ensures OccursAt(front + back, word, i) <==> OccursAt(front, word, i)
  {
    assert (front + back)[i..i + |word|] == front[i..i + |word|];
  }

  lemma OccursBehind(front: string, back: string, word: string, i: nat)
    requires i + |word| <= |back|
    ensures OccursAt(front + back, word, |front| + i) <==> OccursAt(back, word, i)
  {
    assert (front + back)[|front| + i..|front| + i + |word|] == back[i..i + |word|];
  }

  lemma CharacterOccurs(text: string, word: string, i: nat, j: nat)
    requires OccursAt(text, word, i) && i <= j < i + |word|
    ensures text[j] in word
  {
    assert word[j - i] == text[j];
  }

  // ---------- keywords ----------

  /** `strings.Split(s, " ")` */
  function SplitWords(s: string): (words: seq<string>)
    ensures |words| >= 1
  {
    if s == "" then [""]
    else
      var rest := SplitWords(s[1..]);
      if s[0] == ' ' then [""] + rest else [[s[0]] + rest[0]] + rest[1..]
  }

  function JoinWords(words: seq<string>): string {
    if words == [] then "" else if |words| == 1 then words[0] else words[0] + " " + JoinWords(words[1..])
  }

  lemma JoinWithFirst(c: char, words: seq<string>)
    requires words != []
    ensures JoinWords([[c] + words[0]] + words[1..]) == [c] + JoinWords(words)
  {
    var longer := [[c] + words[0]] + words[1..];
    assert longer[1..] == words[1..];
    if |words| > 1 {
      assert JoinWords(longer) == [c] + (words[0] + " " + JoinWords(words[1..]));
    }
  }

  lemma {:induction false} SplitAtEverySpace(s: string)
    ensures forall w | w in SplitWords(s) :: ' ' !in w
  {
    if s != "" {
      SplitAtEverySpace(s[1..]);
      var rest := SplitWords(s[1..]);
      assert forall w | w in SplitWords(s) :: w == SplitWords(s)[0] || w in rest;
    }
  }

  lemma {:induction false} JoinOfSplit(s: string)
    ensures JoinWords(SplitWords(s)) == s
  {
    if s != "" {
      JoinOfSplit(s[1..]);
      var rest := SplitWords(s[1..]);
      JoinWithFirst(s[0], rest);
      assert ([""] + rest)[1..] == rest;
      assert s == [s[0]] + s[1..];
    }
  }

  /** Splitting loses nothing and cuts at every space: it is the inverse of joining with spaces. */
  lemma SplitIsInverseOfJoin(s: string)
    ensures JoinWords(SplitWords(s)) == s
    ensures forall w | w in SplitWords(s) :: ' ' !in w
  {
    JoinOfSplit(s);
    SplitAtEverySpace(s);
  }

  /** The WHERE clauses the search adds, one for each keyword. */
  predicate MatchesKeywords(rawText: string, keywords: seq<string>) {
    forall k | k in keywords :: Like("%" + k + "%", rawText)
  }

  /** With plain keywords the clauses ask for every word to occur in the text. */
  lemma KeywordsAreContained(rawText: string, keywords: string)
    requires Plain(keywords)
    ensures MatchesKeywords(rawText, SplitWords(keywords)) <==>
      forall w | w in SplitWords(keywords) :: Contains(rawText, w)
  {
    forall w | w in SplitWords(keywords)
      ensures Like("%" + w + "%", rawText) <==> Contains(rawText, w)
    {
      WordsArePlain(keywords, w);
      LikeIsContains(w, rawText);
    }
  }

  lemma {:induction false} WordsArePlain(s: string, w: string)
    requires w in SplitWords(s)
    ensures forall c | c in w :: c in s
  {
    if s != "" {
      var rest := SplitWords(s[1..]);
      if s[0] == ' ' {
        if w in rest { WordsArePlain(s[1..], w); }
      } else if w == [s[0]] + rest[0] {
        WordsArePlain(s[1..], rest[0]);
      } else {
        assert w in rest[1..];
        WordsArePlain(s[1..], w);
      }
      assert forall c | c in s[1..] :: c in s;
    }
  }
}
