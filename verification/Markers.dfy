/**
  What a reader of a rendered chapter sees, told without the renderer: how a marker is read, what it
  shows, and that reading the output as HTML gives the source with each bound marker replaced by that.
 */
module Markers {
  import opened Render

  // ------------------------------------------------------- how a marker is read

  /** White space, by code point. */
  lemma SpacesAre(c: char)
    ensures IsSpace(c) <==>
            var n := c as int;
            9 <= n <= 13 || n == 32 || n == 0x85 || n == 0xA0 || n == 0x1680 || 0x2000 <= n <= 0x200A
            || n == 0x2028 || n == 0x2029 || n == 0x202F || n == 0x205F || n == 0x3000
  {
  }

  /** The text from `a` to `b` has no white space at its ends, and there is nothing else outside it. */
  ghost predicate CoreAt(s: string, a: nat, b: nat) {
    && a <= b <= |s|
    && (forall i :: 0 <= i < |s| && !IsSpace(s[i]) ==> a <= i < b)
    && (a < b ==> !IsSpace(s[a]) && !IsSpace(s[b - 1]))
  }

  /** The text without the white space around it. */
  ghost predicate Trimmed(s: string, core: string) {
    exists a: nat, b: nat :: CoreAt(s, a, b) && core == s[a..b]
  }

  lemma SliceOfRest(s: string, a: nat, b: nat)
    requires a <= b < |s|
    ensures s[a + 1..b + 1] == s[1..][a..b]
  {
    var l, r := s[a + 1..b + 1], s[1..][a..b];
    assert |l| == |r| && forall i :: 0 <= i < |l| ==> l[i] == s[1..][a + i] == r[i];
  }

  lemma CoreAfterFirst(s: string, a: nat, b: nat)
    requires s != "" && IsSpace(s[0]) && CoreAt(s[1..], a, b)
    ensures CoreAt(s, a + 1, b + 1) && s[a + 1..b + 1] == s[1..][a..b]
  {
    forall i | 0 <= i < |s| && !IsSpace(s[i])
      ensures a + 1 <= i < b + 1
    {
      assert i > 0;
      assert s[1..][i - 1] == s[i];
    }
    SliceOfRest(s, a, b);
  }

  lemma CoreBeforeLast(s: string, a: nat, b: nat)
    requires s != "" && IsSpace(s[|s| - 1]) && CoreAt(s[..|s| - 1], a, b)
    ensures CoreAt(s, a, b) && s[a..b] == s[..|s| - 1][a..b]
  {
    forall i | 0 <= i < |s| && !IsSpace(s[i])
      ensures a <= i < b
    {
      assert i < |s| - 1;
      assert s[..|s| - 1][i] == s[i];
    }
  }

  lemma TrimStep(s: string)
    requires s != ""
    ensures IsSpace(s[0]) ==> TrimSpace(s) == TrimSpace(s[1..])
    ensures !IsSpace(s[0]) && IsSpace(s[|s| - 1]) ==> TrimSpace(s) == TrimSpace(s[..|s| - 1])
  {
  }

  lemma {:induction false} CoreExists(s: string) returns (a: nat, b: nat)
    ensures CoreAt(s, a, b) && s[a..b] == TrimSpace(s)
    decreases |s|
  {
    if s == "" {
      a, b := 0, 0;
    } else if IsSpace(s[0]) {
      var k, n := CoreExists(s[1..]);
      TrimStep(s);
      CoreAfterFirst(s, k, n);
      a, b := k + 1, n + 1;
    } else if IsSpace(s[|s| - 1]) {
      a, b := CoreExists(s[..|s| - 1]);
      TrimStep(s);
      CoreBeforeLast(s, a, b);
    } else {
      a, b := 0, |s|;
    }
  }

  lemma CoreIsUnique(s: string, a: nat, b: nat, a': nat, b': nat)
    requires CoreAt(s, a, b) && CoreAt(s, a', b')
    ensures s[a..b] == s[a'..b']
  {
    if a < b {
      assert a' <= a && b <= b';
    }
  }

  lemma TrimmedIff(s: string, core: string)
    ensures Trimmed(s, core) <==> core == TrimSpace(s)
  {
    var a, b := CoreExists(s);
    if Trimmed(s, core) {
      var a': nat, b': nat :| CoreAt(s, a', b') && core == s[a'..b'];
      CoreIsUnique(s, a, b, a', b');
    }
  }

  /** The first bar of a marker, or its end. */
  ghost predicate BarAt(inner: string, bar: nat) {
    && bar <= |inner| && (forall i :: 0 <= i < bar ==> inner[i] != '|')
    && (bar < |inner| ==> inner[bar] == '|')
  }

  lemma CutAtBar(inner: string, bar: nat)
    requires BarAt(inner, bar)
    ensures Cut(inner) == (inner[..bar], if bar < |inner| then inner[bar + 1..] else "")
  {
    var (before, after) := Cut(inner);
    if bar < |inner| {
      assert inner[bar] in inner;
      assert inner[|before|] == '|';
      FirstOf(inner, before, bar);
      assert inner[..bar] == before && inner[bar + 1..] == after;
    } else {
      assert '|' !in inner && inner[..bar] == inner;
    }
  }

  lemma FirstOf(inner: string, before: string, bar: nat)
    requires BarAt(inner, bar) && bar < |inner| && '|' !in before
    requires |before| < |inner| && inner[..|before|] == before && inner[|before|] == '|'
    ensures |before| == bar
  {
    assert forall i :: 0 <= i < |before| ==> inner[i] == before[i] && before[i] in before;
  }

  /** A key, or a key and a display text after the first bar, each without white space around it. */
  ghost predicate ReadsAs(inner: string, key: string, display: string) {
    exists bar: nat :: && BarAt(inner, bar) && Trimmed(inner[..bar], key)
                  && Trimmed(if bar < |inner| then inner[bar + 1..] else "", display)
  }

  lemma FirstBar(inner: string) returns (bar: nat)
    ensures BarAt(inner, bar)
  {
    var (before, _) := Cut(inner);
    bar := |before|;
    if '|' in inner {
      assert forall i :: 0 <= i < bar ==> inner[i] == before[i];
    }
  }

  /** There is one way to read a marker, and it is the renderer's. */
  lemma MarkerReadsIff(inner: string, key: string, display: string)
    ensures ReadsAs(inner, key, display) <==> SplitMarker(inner) == (key, display)
  {
    if ReadsAs(inner, key, display) {
      var bar: nat :| && BarAt(inner, bar) && Trimmed(inner[..bar], key)
                 && Trimmed(if bar < |inner| then inner[bar + 1..] else "", display);
      MarkerReadsAt(inner, bar, key, display);
    } else {
      var bar := FirstBar(inner);
      MarkerReadsAt(inner, bar, key, display);
    }
  }

  lemma MarkerReadsAt(inner: string, bar: nat, key: string, display: string)
    requires BarAt(inner, bar)
    ensures Trimmed(inner[..bar], key) && Trimmed(if bar < |inner| then inner[bar + 1..] else "", display)
            <==> SplitMarker(inner) == (key, display)
  {
    CutAtBar(inner, bar);
    TrimmedIff(inner[..bar], key);
    TrimmedIff(if bar < |inner| then inner[bar + 1..] else "", display);
  }

  /** Keys are spelled with ASCII letters, digits, underscores and hyphens, and never empty. */
  lemma KeysAreSpelled(key: string)
    ensures ValidKey(key) <==> |key| > 0 && forall i :: 0 <= i < |key| ==>
              var n := key[i] as int;
              48 <= n <= 57 || 65 <= n <= 90 || 97 <= n <= 122 || n == 45 || n == 95
  {
  }

  /** The last of the terms with this key. */
  ghost predicate LastAt(terms: seq<Term>, key: string, i: nat) {
    i < |terms| && terms[i].key == key && forall j :: i < j < |terms| ==> terms[j].key != key
  }

  lemma LastStays(terms: seq<Term>, key: string, i: nat)
    requires terms != [] && terms[|terms| - 1].key != key
    ensures LastAt(terms[..|terms| - 1], key, i) ==> LastAt(terms, key, i) && terms[..|terms| - 1][i] == terms[i]
    ensures (forall t :: t in terms[..|terms| - 1] ==> t.key != key) ==> forall t :: t in terms ==> t.key != key
  {
    var n := |terms| - 1;
    assert terms == terms[..n] + [terms[n]];
    assert forall j :: 0 <= j < n ==> terms[..n][j] == terms[j];
  }

  lemma {:induction false} LastTermWins(terms: seq<Term>, key: string) returns (i: nat)
    ensures key in ByKey(terms) ==> LastAt(terms, key, i) && ByKey(terms)[key] == terms[i]
    ensures key !in ByKey(terms) ==> forall t :: t in terms ==> t.key != key
  {
    i := 0;
    if terms != [] {
      var n := |terms| - 1;
      if terms[n].key == key {
        i := n;
      } else {
        i := LastTermWins(terms[..n], key);
        LastStays(terms, key, i);
      }
    }
  }

  // ----------------------------------------------------------- what it shows

  /** The text of a bound marker: what its writer put after the bar, or else the term's title. */
  function Shown(inner: string, byKey: map<string, Term>): string
    requires Binds(inner, byKey)
  {
    if SplitMarker(inner).1 != "" then SplitMarker(inner).1 else byKey[SplitMarker(inner).0].title
  }

  /** A marker binds when its key can be a key and some term has it; then it shows its text or the last such title. */
  lemma ShownIff(inner: string, terms: seq<Term>, key: string, display: string) returns (last: nat)
    requires ReadsAs(inner, key, display)
    ensures Binds(inner, ByKey(terms)) <==> ValidKey(key) && exists t :: t in terms && t.key == key
    ensures Unmatched(inner, ByKey(terms)) <==> ValidKey(key) && !exists t :: t in terms && t.key == key
    ensures Binds(inner, ByKey(terms)) ==>
              LastAt(terms, key, last)
              && Shown(inner, ByKey(terms)) == if display == "" then terms[last].title else display
  {
    MarkerReadsIff(inner, key, display);
    last := LastTermWins(terms, key);
  }

  /** Every bound marker of the document carries a text of its own. */
  predicate OwnTexts(d: Doc, byKey: map<string, Term>) {
    d.Part? ==> (Binds(d.inner, byKey) ==> SplitMarker(d.inner).1 != "") && OwnTexts(d.rest, byKey)
  }

  /** Titles do not matter where the writer has said what to show. */
  lemma {:induction false} OwnTextsHideTitles(d: Doc, m: map<string, Term>, n: map<string, Term>)
    requires m.Keys == n.Keys && OwnTexts(d, m)
    ensures Html(d, m) == Html(d, n)
  {
    if d.Part? {
      OwnTextsHideTitles(d.rest, m, n);
    }
  }

  /** Two markers of one bound key render alike exactly when they show the same. */
  lemma RenderAlikeIff(inner: string, inner': string, byKey: map<string, Term>)
    requires Binds(inner, byKey) && Binds(inner', byKey) && SplitMarker(inner).0 == SplitMarker(inner').0
    ensures Piece(inner, byKey) == Piece(inner', byKey) <==> Shown(inner, byKey) == Shown(inner', byKey)
  {
    var opening := SpanOpening(SplitMarker(inner).0);
    if Piece(inner, byKey) == Piece(inner', byKey) {
      SameBetween(opening, EscapeString(Shown(inner, byKey)), EscapeString(Shown(inner', byKey)), "</span>");
      EscapeIsInjective(Shown(inner, byKey), Shown(inner', byKey));
    }
  }

  // ------------------------------------------------------- reading HTML back

  /** What a browser takes HTML apart into. A reference it does not know, or one that never ends, stays as written. */
  datatype Token = Char(c: char) | Tag(text: string) | Reference(name: string) | Broken(text: string)

  /** How far to the first such character. */
  function UpTo(s: string, c: char): (n: nat)
    ensures n <= |s| && (n < |s| ==> s[n] == c) && forall i :: 0 <= i < n ==> s[i] != c
  {
    if s == "" || s[0] == c then 0 else 1 + UpTo(s[1..], c)
  }

  /** The character references of the five characters that have a meaning in HTML. */
  function Meaning(name: string): Token {
    if name == "lt" then Char('<')
    else if name == "gt" then Char('>')
    else if name == "amp" then Char('&')
    else if name == "#39" then Char('\'')
    else if name == "#34" then Char('\"')
    else Reference(name)
  }

  /** The first token, and how much of the text it takes: a tag to its bracket, a reference to its semicolon. */
  function First(s: string): (r: (Token, nat))
    requires s != ""
    ensures 0 < r.1 <= |s|
  {
    if s[0] == '<' then
      var n := UpTo(s, '>');
      if n == |s| then (Broken(s), n) else (Tag(s[1..n]), n + 1)
    else if s[0] == '&' then
      var n := UpTo(s, ';');
      if n == |s| then (Broken(s), n) else (Meaning(s[1..n]), n + 1)
    else (Char(s[0]), 1)
  }

  function Read(s: string): seq<Token>
    decreases |s|
  {
    if s == "" then [] else [First(s).0] + Read(s[First(s).1..])
  }

  function Chars(s: string): seq<Token> {
    seq(|s|, i requires 0 <= i < |s| => Char(s[i]))
  }

  /** No tag or reference is left open at the end. */
  predicate Whole(s: string)
    decreases |s|
  {
    s == "" || (!First(s).0.Broken? && Whole(s[First(s).1..]))
  }

  lemma UpToJoins(s: string, more: string, c: char)
    requires UpTo(s, c) < |s|
    ensures UpTo(s + more, c) == UpTo(s, c)
  {
    var n, m := UpTo(s, c), UpTo(s + more, c);
    assert (s + more)[n] == c;
    assert m < |s| ==> s[m] == (s + more)[m];
  }

  lemma FirstJoins(s: string, more: string)
    requires s != "" && !First(s).0.Broken?
    ensures First(s + more) == First(s)
  {
    if s[0] == '<' {
      UpToJoins(s, more, '>');
      assert (s + more)[1..UpTo(s, '>')] == s[1..UpTo(s, '>')];
    } else if s[0] == '&' {
      UpToJoins(s, more, ';');
      assert (s + more)[1..UpTo(s, ';')] == s[1..UpTo(s, ';')];
    }
  }

  lemma ReadStep(s: string, token: Token, n: nat, rest: string)
    requires s != "" && First(s) == (token, n) && s[n..] == rest
    ensures Read(s) == [token] + Read(rest)
  {
  }

  lemma Grouped(token: Token, b: seq<Token>, c: seq<Token>)
    ensures [token] + b + c == [token] + (b + c)
  {
  }

  lemma DropJoins(s: string, more: string, n: nat)
    requires n <= |s|
    ensures (s + more)[n..] == s[n..] + more
  {
  }

  lemma RestJoins(s: string, all: string, token: Token, n: nat, rest: string, after: string, more: seq<Token>)
    requires s != "" && First(s) == (token, n) && s[n..] == rest
    requires all != "" && First(all) == (token, n) && all[n..] == after && Read(after) == Read(rest) + more
    ensures Read(all) == Read(s) + more
  {
    ReadStep(s, token, n, rest);
    ReadStep(all, token, n, after);
    Grouped(token, Read(rest), more);
  }

  /** Whole text is read on its own, whatever follows. */
  lemma {:induction false} ReadJoins(s: string, more: string)
    requires Whole(s)
    ensures Read(s + more) == Read(s) + Read(more)
    decreases |s|
  {
    if s == "" {
      assert s + more == more;
      assert Read(s) + Read(more) == Read(more);
    } else {
      var (token, n) := First(s);
      ReadJoins(s[n..], more);
      FirstJoins(s, more);
      DropJoins(s, more, n);
      RestJoins(s, s + more, token, n, s[n..], s[n..] + more, Read(more));
    }
  }

  // --------------------------------------------------- the output, read back

  lemma ReferenceReads(name: string, more: string)
    requires ';' !in name
    ensures Read("&" + name + ";" + more) == [Meaning(name)] + Read(more)
  {
    var s := "&" + name + ";" + more;
    var n := |name| + 1;
    assert s[n] == ';' && forall i :: 0 < i < n ==> s[i] == name[i - 1];
    assert UpTo(s, ';') == n;
    assert s[1..n] == name && s[n + 1..] == more;
    ReadStep(s, Meaning(name), n + 1, more);
  }

  /** Each character that is escaped is escaped as a reference that means it. */
  lemma EscapedByName(c: char) returns (name: string)
    requires c == '<' || c == '>' || c == '&' || c == '\'' || c == '\"'
    ensures EscapeChar(c) == "&" + name + ";" && ';' !in name && Meaning(name) == Char(c)
  {
    match c
    case '<' => name := "lt";
    case '>' => name := "gt";
    case '&' => name := "amp";
    case '\'' => name := "#39";
    case _ => name := "#34";
  }

  lemma PlainCharReads(c: char, more: string)
    requires c != '<' && c != '&'
    ensures Read([c] + more) == [Char(c)] + Read(more)
  {
    var s := [c] + more;
    assert s[0] == c && s[1..] == more;
    ReadStep(s, Char(c), 1, more);
  }

  /** The escape of a character is read as the character. */
  lemma CharReadsBack(c: char, more: string)
    ensures Read(EscapeChar(c) + more) == [Char(c)] + Read(more)
  {
    if c == '<' || c == '>' || c == '&' || c == '\'' || c == '\"' {
      var name := EscapedByName(c);
      ReferenceReads(name, more);
    } else {
      PlainCharReads(c, more);
    }
  }

  lemma CharsStep(x: string)
    requires x != ""
    ensures Chars(x) == [Char(x[0])] + Chars(x[1..])
  {
  }

  lemma EscapeStep(x: string, more: string)
    requires x != ""
    ensures EscapeString(x) + more == EscapeChar(x[0]) + (EscapeString(x[1..]) + more)
  {
    Regroup(EscapeChar(x[0]), EscapeString(x[1..]), more);
  }

  /** Escaped text is read as the text. */
  lemma {:induction false} TextReadsBack(x: string, more: string)
    ensures Read(EscapeString(x) + more) == Chars(x) + Read(more)
  {
    if x == "" {
      assert EscapeString(x) + more == more;
      assert Chars(x) + Read(more) == Read(more);
    } else {
      EscapeStep(x, more);
      CharReadsBack(x[0], EscapeString(x[1..]) + more);
      TextReadsBack(x[1..], more);
      CharsStep(x);
      Grouped(Char(x[0]), Chars(x[1..]), Read(more));
    }
  }

  lemma TagReads(text: string, more: string)
    requires '>' !in text
    ensures Read("<" + text + ">" + more) == [Tag(text)] + Read(more)
  {
    var s := "<" + text + ">" + more;
    var n := |text| + 1;
    assert s[n] == '>' && forall i :: 0 < i < n ==> s[i] == text[i - 1];
    assert UpTo(s, '>') == n;
    assert s[1..n] == text && s[n + 1..] == more;
    ReadStep(s, Tag(text), n + 1, more);
  }

  /** A span that names the key, with the text between its tags. */
  function SpanTokens(key: string, shown: string): seq<Token> {
    [Tag("span data-k=\"" + key + "\"")] + (Chars(shown) + [Tag("/span")])
  }

  lemma Regrouped(a: string, b: string, key: string, c: string, d: string, text: string, e: string)
    ensures (a + b) + key + (c + d) + text + e == a + (b + key + c) + d + (text + e)
  {
  }

  lemma SpanOpens(key: string, text: string, more: string)
    requires ValidKey(key)
    ensures SpanOpening(key) + text + "</span>" + more
              == "<" + ("span data-k=\"" + key + "\"") + ">" + (text + ("<" + "/span" + ">" + more))
  {
    ValidKeysAreTheirOwnEscape(key);
    var closing := "</span>" + more;
    assert closing == "<" + "/span" + ">" + more;
    assert "<span data-k=\"" == "<" + "span data-k=\"" && "\">" == "\"" + ">";
    Regrouped("<", "span data-k=\"", key, "\"", ">", text, closing);
    Regroup(SpanOpening(key) + text, "</span>", more);
  }

  lemma KeyHasNoBracket(key: string)
    requires ValidKey(key)
    ensures '>' !in "span data-k=\"" + key + "\""
  {
  }

  lemma TextThenTag(shown: string, more: string)
    ensures Read(EscapeString(shown) + ("<" + "/span" + ">" + more)) == Chars(shown) + [Tag("/span")] + Read(more)
  {
    TextReadsBack(shown, "<" + "/span" + ">" + more);
    TagReads("/span", more);
    Joined(Chars(shown), [Tag("/span")], Read(more));
  }

  lemma Joined(a: seq<Token>, b: seq<Token>, c: seq<Token>)
    ensures a + b + c == a + (b + c)
  {
  }

  /** A bound marker is read as its span. */
  lemma SpanReadsBack(inner: string, byKey: map<string, Term>, more: string)
    requires Binds(inner, byKey)
    ensures Read(Piece(inner, byKey) + more) == SpanTokens(SplitMarker(inner).0, Shown(inner, byKey)) + Read(more)
  {
    var key, shown := SplitMarker(inner).0, Shown(inner, byKey);
    var after := EscapeString(shown) + ("<" + "/span" + ">" + more);
    SpanOpens(key, EscapeString(shown), more);
    KeyHasNoBracket(key);
    assert Piece(inner, byKey) + more == SpanOpening(key) + EscapeString(shown) + "</span>" + more;
    TagReads("span data-k=\"" + key + "\"", after);
    TextThenTag(shown, more);
    Grouped(Tag("span data-k=\"" + key + "\""), Chars(shown) + [Tag("/span")], Read(more));
  }

  /** Text and unbound markers as written, each bound marker as its span. */
  function Meant(d: Doc, byKey: map<string, Term>): seq<Token> {
    match d
    case Tail(text) => Read(text)
    case Part(text, inner, rest) => Read(text) + (MeantPiece(inner, byKey) + Meant(rest, byKey))
  }

  function MeantPiece(inner: string, byKey: map<string, Term>): seq<Token> {
    if Binds(inner, byKey) then SpanTokens(SplitMarker(inner).0, Shown(inner, byKey)) else Read(Marked(inner))
  }

  /** No tag or reference of the writer's own runs across a marker. */
  predicate WholeDoc(d: Doc, byKey: map<string, Term>) {
    d.Part? ==> Whole(d.text) && (Binds(d.inner, byKey) || Whole(Marked(d.inner))) && WholeDoc(d.rest, byKey)
  }

  lemma PieceReadsBack(inner: string, byKey: map<string, Term>, more: string)
    requires Binds(inner, byKey) || Whole(Marked(inner))
    ensures Read(Piece(inner, byKey) + more) == MeantPiece(inner, byKey) + Read(more)
  {
    if Binds(inner, byKey) {
      SpanReadsBack(inner, byKey, more);
    } else {
      ReadJoins(Marked(inner), more);
    }
  }

  /** The output, read as HTML: the source's own tags and text, and one span for each bound marker, in place. */
  lemma {:induction false} OutputReadsBack(d: Doc, byKey: map<string, Term>)
    requires WholeDoc(d, byKey)
    ensures Read(Html(d, byKey)) == Meant(d, byKey)
  {
    if d.Part? {
      OutputReadsBack(d.rest, byKey);
      var more := Html(d.rest, byKey);
      Regroup(d.text, Piece(d.inner, byKey), more);
      ReadJoins(d.text, Piece(d.inner, byKey) + more);
      PieceReadsBack(d.inner, byKey, more);
    }
  }

  // ------------------------------------------------------------ as plain text

  /** The characters on the page: tags are not seen. */
  function Visible(tokens: seq<Token>): string {
    if tokens == [] then ""
    else
      (match tokens[0]
       case Char(c) => [c]
       case Tag(_) => ""
       case Reference(name) => "&" + name + ";"
       case Broken(text) => text)
      + Visible(tokens[1..])
  }

  lemma {:induction false} VisibleJoins(a: seq<Token>, b: seq<Token>)
    ensures Visible(a + b) == Visible(a) + Visible(b)
  {
    if a == [] {
      assert a + b == b;
    } else {
      assert (a + b)[1..] == a[1..] + b;
      VisibleJoins(a[1..], b);
    }
  }

  lemma {:induction false} CharsAreVisible(x: string)
    ensures Visible(Chars(x)) == x
  {
    if x != "" {
      CharsStep(x);
      assert Chars(x)[1..] == Chars(x[1..]);
      CharsAreVisible(x[1..]);
    }
  }

  lemma SpanIsItsText(key: string, shown: string)
    ensures Visible(SpanTokens(key, shown)) == shown
  {
    var inside := Chars(shown) + [Tag("/span")];
    assert SpanTokens(key, shown)[1..] == inside;
    assert [Tag("/span")][1..] == [];
    VisibleJoins(Chars(shown), [Tag("/span")]);
    CharsAreVisible(shown);
  }

  predicate Plain(s: string) {
    forall c :: c in s ==> c != '<' && c != '&'
  }

  lemma {:induction false} PlainIsVisible(s: string)
    requires Plain(s)
    ensures Whole(s) && Visible(Read(s)) == s
  {
    if s != "" {
      var c := s[0];
      assert c in s;
      assert forall x :: x in s[1..] ==> x in s;
      PlainIsVisible(s[1..]);
      assert Read(s) == [Char(s[0])] + Read(s[1..]);
      assert Read(s)[1..] == Read(s[1..]);
    }
  }

  /** The writer has put no HTML of their own around the bound markers. */
  predicate PlainDoc(d: Doc, byKey: map<string, Term>) {
    Plain(d.text) && (d.Part? ==> (Binds(d.inner, byKey) || Plain(Marked(d.inner))) && PlainDoc(d.rest, byKey))
  }

  /** The source with what each bound marker shows in its place. */
  function WithShown(d: Doc, byKey: map<string, Term>): string {
    match d
    case Tail(text) => text
    case Part(text, inner, rest) =>
      text + ((if Binds(inner, byKey) then Shown(inner, byKey) else Marked(inner)) + WithShown(rest, byKey))
  }

  lemma {:induction false} PlainDocIsVisible(d: Doc, byKey: map<string, Term>)
    requires PlainDoc(d, byKey)
    ensures WholeDoc(d, byKey) && Visible(Meant(d, byKey)) == WithShown(d, byKey)
  {
    PlainIsVisible(d.text);
    if d.Part? {
      PlainDocIsVisible(d.rest, byKey);
      var piece, more := MeantPiece(d.inner, byKey), Meant(d.rest, byKey);
      if Binds(d.inner, byKey) {
        SpanIsItsText(SplitMarker(d.inner).0, Shown(d.inner, byKey));
      } else {
        PlainIsVisible(Marked(d.inner));
      }
      VisibleJoins(Read(d.text), piece + more);
      VisibleJoins(piece, more);
    }
  }

  /** What is seen of a rendered plain text is the source with each bound marker replaced by what it shows. */
  lemma OutputShows(source: string, terms: seq<Term>)
    requires PlainDoc(Parse(source), ByKey(terms))
    ensures Visible(Read(Html(Parse(source), ByKey(terms)))) == WithShown(Parse(source), ByKey(terms))
    ensures Source(Parse(source)) == source
  {
    PlainDocIsVisible(Parse(source), ByKey(terms));
    OutputReadsBack(Parse(source), ByKey(terms));
    ParseIsLossless(source, 0);
    assert source[0..] == source;
  }

  lemma AllIsCore(s: string)
    requires s != "" && !IsSpace(s[0]) && !IsSpace(s[|s| - 1])
    ensures Trimmed(s, s)
  {
    assert CoreAt(s, 0, |s|) && s == s[0..|s|];
  }

  lemma BladeReads()
    ensures SplitMarker("k|the blade") == ("k", "the blade")
  {
    var inner := "k|the blade";
    AllIsCore("k");
    AllIsCore("the blade");
    assert BarAt(inner, 1) && inner[..1] == "k" && inner[2..] == "the blade";
    MarkerReadsAt(inner, 1, "k", "the blade");
  }

  lemma BladeParses()
    ensures Parse("{{k|the blade}}") == Part("", "k|the blade", Tail(""))
  {
    var source, d := "{{k|the blade}}", Part("", "k|the blade", Tail(""));
    assert source[0..] == Source(d) by {
      assert source == "{{" + "k|the blade" + "}}";
    }
    assert forall k :: !PairAt("" + "{", '{', k);
    assert forall k :: !PairAt("k|the blade" + "}", '}', k);
    assert forall k :: !PairAt("", '{', k);
    ParseIsUnique(source, 0, d);
  }

  lemma OwnTextIsShown(source: string, inner: string, key: string, display: string, byKey: map<string, Term>)
    requires Parse(source) == Part("", inner, Tail("")) && SplitMarker(inner) == (key, display)
    requires ValidKey(key) && key in byKey && display != ""
    ensures Binds(inner, byKey) && Html(Parse(source), byKey) == Piece(inner, byKey) && Shown(inner, byKey) == display
  {
    OnePiece(inner, byKey);
  }

  lemma TheBlade() returns (source: string, inner: string, key: string, display: string)
    ensures source == "{{k|the blade}}" && key == "k" && display == "the blade"
    ensures Parse(source) == Part("", inner, Tail("")) && SplitMarker(inner) == (key, display)
    ensures ValidKey(key) && display != ""
  {
    source, inner, key, display := "{{k|the blade}}", "k|the blade", "k", "the blade";
    BladeReads();
    BladeParses();
  }

  /** `{{k|the blade}}` shows the blade, whatever the title of k. */
  lemma TheBladeIsShown(byKey: map<string, Term>) returns (source: string, inner: string, shown: string)
    requires "k" in byKey
    ensures source == "{{k|the blade}}" && shown == "the blade"
    ensures Binds(inner, byKey) && Html(Parse(source), byKey) == Piece(inner, byKey) && Shown(inner, byKey) == shown
  {
    var key;
    source, inner, key, shown := TheBlade();
    OwnTextIsShown(source, inner, key, shown, byKey);
  }
}
