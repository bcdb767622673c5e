/**
  Rendering glossary markers. The scanner works by index; what it computes is a unique
  decomposition of the source into text and markers, each marker bound or left verbatim.
  Strings are sequences of Unicode code points.
 */
module Render {
  import opened Prelude

  datatype Term = Term(entryId: int, key: string, title: string)

  datatype Rendered = Rendered(html: string, entryIds: seq<int>, unknown: seq<string>)

  // ------------------------------------------------------- the decomposition

  /** Text and markers in alternation, ending in text that holds no complete marker. */
  datatype Doc = Tail(text: string) | Part(text: string, inner: string, rest: Doc)

  /** The character stands at `k` and again right after. */
  predicate PairAt(s: string, c: char, k: int) {
    0 <= k < |s| - 1 && s[k] == s[k + 1] == c
  }

  /** The first index at or after `from` where the character stands twice, or -1. */
  function IndexPair(s: string, c: char, from: nat): (k: int)
    requires from <= |s|
    ensures k == -1 || (from <= k && PairAt(s, c, k))
    ensures forall j {:trigger PairAt(s, c, j)} :: from <= j && (k < 0 || j < k) ==> !PairAt(s, c, j)
    decreases |s| - from
  {
    if from + 1 >= |s| then -1
    else if PairAt(s, c, from) then from
    else IndexPair(s, c, from + 1)
  }

  function PastBraces(k: int): int {
    k + 2
  }

  function Marked(inner: string): string {
    "{{" + inner + "}}"
  }

  /**
    The decomposition of what follows index `i`: the first opening braces, then the first closing
    braces after them.
   */
  function ParseFrom(s: string, i: nat): Doc
    requires i <= |s|
    decreases |s| - i
  {
    var start := IndexPair(s, '{', i);
    if start < 0 then Tail(s[i..])
    else
      var end := IndexPair(s, '}', start);
      if end < 0 then Tail(s[i..])
      else Part(s[i..start], s[start + 2..end], ParseFrom(s, PastBraces(end)))
  }

  function Parse(s: string): Doc { ParseFrom(s, 0) }

  /** The text a decomposition stands for. */
  function Source(d: Doc): string {
    match d
    case Tail(text) => text
    case Part(text, inner, rest) => text + (Marked(inner) + Source(rest))
  }

  ghost predicate HasPair(s: string, c: char) {
    exists k :: PairAt(s, c, k)
  }

  ghost predicate HasMarker(s: string) {
    exists a, b :: PairAt(s, '{', a) && PairAt(s, '}', b) && a + 2 <= b
  }

  /** Each opening pair is the first there is, each closing pair the first after it, and the tail holds no marker. */
  ghost predicate Canonical(d: Doc) {
    match d
    case Tail(text) => !HasMarker(text)
    case Part(text, inner, rest) => !HasPair(text + "{", '{') && !HasPair(inner + "}", '}') && Canonical(rest)
  }

  /** A copy of a stretch of `s` has a pair only where `s` has one. */
  lemma NoPairInCopy(piece: string, s: string, at: nat, c: char)
    requires at + |piece| <= |s| && forall k :: 0 <= k < |piece| ==> piece[k] == s[at + k]
    requires forall j {:trigger PairAt(s, c, j)} :: at <= j < at + |piece| - 1 ==> !PairAt(s, c, j)
    ensures !HasPair(piece, c)
  {
    forall k
      ensures !PairAt(piece, c, k)
    {
      assert !PairAt(s, c, at + k) || !(0 <= k < |piece| - 1);
    }
  }

  lemma TailHasNoMarker(s: string, i: nat)
    requires i <= |s| && ParseFrom(s, i).Tail?
    ensures !HasMarker(s[i..])
  {
    forall a, b | PairAt(s[i..], '{', a) && PairAt(s[i..], '}', b)
      ensures a + 2 > b
    {
      assert PairAt(s, '{', i + a) && PairAt(s, '}', i + b);
    }
  }

  /** A closing pair found from an opening pair lies beyond it. */
  lemma ClosesBeyond(s: string, start: nat, end: nat)
    requires PairAt(s, '{', start) && PairAt(s, '}', end) && start <= end
    ensures start + 2 <= end
  {
  }

  lemma PiecesOfSource(s: string, i: nat, start: nat, end: nat)
    requires i <= start && start + 2 <= end && PairAt(s, '{', start) && PairAt(s, '}', end)
    ensures s[i..] == s[i..start] + (Marked(s[start + 2..end]) + s[end + 2..])
  {
    assert s[start..start + 2] == "{{" && s[end..end + 2] == "}}";
    assert s[i..] == s[i..start] + s[start..start + 2] + s[start + 2..end] + s[end..end + 2] + s[end + 2..];
  }

  lemma PartIsCanonical(s: string, i: nat, start: nat, end: nat)
    requires i <= |s| && start == IndexPair(s, '{', i) && end == IndexPair(s, '}', start) && start + 2 <= end
    ensures !HasPair(s[i..start] + "{", '{') && !HasPair(s[start + 2..end] + "}", '}')
  {
    NoPairInCopy(s[i..start] + "{", s, i, '{');
    NoPairInCopy(s[start + 2..end] + "}", s, start + 2, '}');
  }

  /** One marker and a decomposition of what follows it. */
  lemma PartJoins(s: string, i: nat, start: nat, end: nat, rest: Doc)
    requires i <= |s| && start == IndexPair(s, '{', i) && end == IndexPair(s, '}', start)
    requires Source(rest) == s[PastBraces(end)..] && Canonical(rest)
    ensures Source(Part(s[i..start], s[start + 2..end], rest)) == s[i..]
    ensures Canonical(Part(s[i..start], s[start + 2..end], rest))
  {
    ClosesBeyond(s, start, end);
    PiecesOfSource(s, i, start, end);
    PartIsCanonical(s, i, start, end);
  }

  /** Segmenting loses nothing, and segments as declared. */
  lemma {:induction false} ParseIsLossless(s: string, i: nat)
    requires i <= |s|
    ensures Source(ParseFrom(s, i)) == s[i..] && Canonical(ParseFrom(s, i))
    decreases |s| - i
  {
    var d := ParseFrom(s, i);
    if d.Tail? {
      TailHasNoMarker(s, i);
    } else {
      var start := IndexPair(s, '{', i);
      var end := IndexPair(s, '}', start);
      ParseIsLossless(s, PastBraces(end));
      PartJoins(s, i, start, end, d.rest);
    }
  }

  lemma FirstPair(s: string, c: char, from: nat, k: nat)
    requires from <= k && PairAt(s, c, k)
    requires forall j {:trigger PairAt(s, c, j)} :: from <= j < k ==> !PairAt(s, c, j)
    ensures IndexPair(s, c, from) == k
  {
  }

  lemma NoPairAtJoin(piece: string, c: char, s: string, at: nat)
    requires !HasPair(piece + [c], c) && at + |piece| < |s|
    requires (forall k :: 0 <= k < |piece| ==> s[at + k] == piece[k]) && s[at + |piece|] == c
    ensures forall j {:trigger PairAt(s, c, j)} :: at <= j < at + |piece| ==> !PairAt(s, c, j)
  {
    forall j | at <= j < at + |piece|
      ensures !PairAt(s, c, j)
    {
      assert !PairAt(piece + [c], c, j - at);
      assert s[at + (j - at)] == piece[j - at];
      assert j - at + 1 < |piece| ==> s[at + (j - at + 1)] == piece[j - at + 1];
    }
  }

  /** The searches land on the braces of the first marker. */
  lemma ScanSeesTheMarker(s: string, i: nat, start: nat, end: nat)
    requires i <= start && start + 2 <= end && PairAt(s, '{', start) && PairAt(s, '}', end)
    requires !HasPair(s[i..start] + "{", '{') && !HasPair(s[start + 2..end] + "}", '}')
    ensures IndexPair(s, '{', i) == start && IndexPair(s, '}', start) == end
  {
    NoPairAtJoin(s[i..start], '{', s, i);
    FirstPair(s, '{', i, start);
    NoPairAtJoin(s[start + 2..end], '}', s, start + 2);
    FirstPair(s, '}', start, end);
  }

  lemma MarkerlessTail(s: string, i: nat)
    requires i <= |s| && !HasMarker(s[i..])
    ensures IndexPair(s, '{', i) < 0 || IndexPair(s, '}', IndexPair(s, '{', i)) < 0
  {
    var start := IndexPair(s, '{', i);
    if start >= 0 {
      var end := IndexPair(s, '}', start);
      if end >= 0 {
        ClosesBeyond(s, start, end);
        assert PairAt(s[i..], '{', start - i) && PairAt(s[i..], '}', end - i);
      }
    }
  }

  lemma SplitSource(s: string, i: nat, text: string, inner: string, after: string)
    requires i <= |s| && s[i..] == text + (Marked(inner) + after)
    ensures var start, end := i + |text|, i + |text| + 2 + |inner|;
            && end + 2 <= |s| && PairAt(s, '{', start) && PairAt(s, '}', end)
            && s[i..start] == text && s[start + 2..end] == inner && s[end + 2..] == after
  {
    var start, end := i + |text|, i + |text| + 2 + |inner|;
    assert forall k :: 0 <= k < |s[i..]| ==> s[i + k] == s[i..][k];
    assert s[i..][|text|] == '{' && s[i..][|text| + 1] == '{';
    assert s[i..][|text| + 2 + |inner|] == '}' && s[i..][|text| + 3 + |inner|] == '}';
  }

  /** Where the two searches from `i` land, for a source that goes on as `d` says. */
  ghost predicate SearchesFind(s: string, i: nat, d: Doc)
    requires i <= |s|
  {
    var start := IndexPair(s, '{', i);
    match d
    case Tail(text) => s[i..] == text && (start < 0 || IndexPair(s, '}', start) < 0)
    case Part(text, inner, rest) =>
      && start >= 0
      && var end := IndexPair(s, '}', start);
         start + 2 <= end && end + 2 <= |s|
         && s[i..start] == text && s[start + 2..end] == inner && s[PastBraces(end)..] == Source(rest)
  }

  lemma SearchesAgree(s: string, i: nat, d: Doc)
    requires i <= |s| && s[i..] == Source(d) && Canonical(d)
    ensures SearchesFind(s, i, d)
  {
    match d
    case Tail(text) =>
      MarkerlessTail(s, i);
    case Part(text, inner, rest) =>
      SplitSource(s, i, text, inner, Source(rest));
      ScanSeesTheMarker(s, i, i + |text|, i + |text| + 2 + |inner|);
  }

  lemma ParseStep(s: string, i: nat, d: Doc)
    requires i <= |s| && SearchesFind(s, i, d)
    requires d.Part? ==> ParseFrom(s, PastBraces(IndexPair(s, '}', IndexPair(s, '{', i)))) == d.rest
    ensures ParseFrom(s, i) == d
  {
  }

  /** There is only one decomposition: whatever is canonical is what the scanner finds. */
  lemma {:induction false} ParseIsUnique(s: string, i: nat, d: Doc)
    requires i <= |s| && s[i..] == Source(d) && Canonical(d)
    ensures ParseFrom(s, i) == d
    decreases d
  {
    SearchesAgree(s, i, d);
    if d.Part? {
      ParseIsUnique(s, PastBraces(IndexPair(s, '}', IndexPair(s, '{', i))), d.rest);
    }
    ParseStep(s, i, d);
  }

  // -------------------------------------------------------------- one marker

  /** White space as Unicode defines it. */
  predicate IsSpace(c: char) {
    || c == '\t' || c == '\n' || c == '\U{0B}' || c == '\U{0C}' || c == '\r' || c == ' '
    || c == '\U{85}' || c == '\U{A0}'
    || c == '\U{1680}' || '\U{2000}' <= c <= '\U{200A}' || c == '\U{2028}' || c == '\U{2029}' || c == '\U{202F}'
    || c == '\U{205F}' || c == '\U{3000}'
  }

  function TrimSpace(s: string): (r: string)
    ensures r != "" ==> !IsSpace(r[0]) && !IsSpace(r[|r| - 1])
    decreases |s|
  {
    if s == "" then ""
    else if IsSpace(s[0]) then TrimSpace(s[1..])
    else if IsSpace(s[|s| - 1]) then TrimSpace(s[..|s| - 1])
    else s
  }

  /** What stands before and after the first bar. */
  function Cut(s: string): (r: (string, string))
    ensures '|' !in r.0
    ensures if '|' in s then s == r.0 + "|" + r.1 else r == (s, "")
  {
    if s == "" then ("", "")
    else if s[0] == '|' then ("", s[1..])
    else
      assert s == [s[0]] + s[1..];
      var (before, after) := Cut(s[1..]);
      ([s[0]] + before, after)
  }

  function SplitMarker(inner: string): (string, string) {
    var (key, display) := Cut(inner);
    (TrimSpace(key), TrimSpace(display))
  }

  predicate KeyChar(c: char) {
    'a' <= c <= 'z' || 'A' <= c <= 'Z' || '0' <= c <= '9' || c == '_' || c == '-'
  }

  predicate ValidKey(key: string) {
    key != "" && forall i :: 0 <= i < |key| ==> KeyChar(key[i])
  }

  function EscapeChar(c: char): string {
    match c
    case '<' => "&lt;"
    case '>' => "&gt;"
    case '&' => "&amp;"
    case '\'' => "&#39;"
    case '\"' => "&#34;"
    case _ => [c]
  }

  function EscapeString(s: string): string {
    if s == "" then "" else EscapeChar(s[0]) + EscapeString(s[1..])
  }

  /** Of several terms with one key, the last read wins. */
  function ByKey(terms: seq<Term>): (m: map<string, Term>)
    ensures forall k :: k in m ==> m[k] in terms && m[k].key == k
    ensures forall t :: t in terms ==> t.key in m
  {
    if terms == [] then map[]
    else
      var n := |terms| - 1;
      assert terms == terms[..n] + [terms[n]];
      ByKey(terms[..n])[terms[n].key := terms[n]]
  }

  predicate Binds(inner: string, byKey: map<string, Term>) {
    ValidKey(SplitMarker(inner).0) && SplitMarker(inner).0 in byKey
  }

  predicate Unmatched(inner: string, byKey: map<string, Term>) {
    ValidKey(SplitMarker(inner).0) && SplitMarker(inner).0 !in byKey
  }

  function SpanOpening(key: string): string {
    "<span data-k=\"" + EscapeString(key) + "\">"
  }

  /** The span a bound marker becomes: its own display text, or else the term's title. */
  function Span(inner: string, byKey: map<string, Term>): string
    requires Binds(inner, byKey)
  {
    var (key, display) := SplitMarker(inner);
    SpanOpening(key) + EscapeString(if display == "" then byKey[key].title else display) + "</span>"
  }

  function Piece(inner: string, byKey: map<string, Term>): string {
    if Binds(inner, byKey) then Span(inner, byKey) else Marked(inner)
  }

  // ------------------------------------------------------- the specification

  function Html(d: Doc, byKey: map<string, Term>): string {
    match d
    case Tail(text) => text
    case Part(text, inner, rest) => text + Piece(inner, byKey) + Html(rest, byKey)
  }

  function BoundIds(d: Doc, byKey: map<string, Term>): set<int> {
    match d
    case Tail(_) => {}
    case Part(_, inner, rest) =>
      (if Binds(inner, byKey) then {byKey[SplitMarker(inner).0].entryId} else {}) + BoundIds(rest, byKey)
  }

  /** Keys reported so far, followed by the new ones in order of first mention. */
  function UnknownAfter(known: seq<string>, d: Doc, byKey: map<string, Term>): seq<string>
    decreases d
  {
    match d
    case Tail(_) => known
    case Part(_, inner, rest) =>
      var key := SplitMarker(inner).0;
      UnknownAfter(if Unmatched(inner, byKey) && key !in known then known + [key] else known, rest, byKey)
  }

  /** The markers of a document, in order. */
  function Markers(d: Doc): seq<string> {
    match d
    case Tail(_) => []
    case Part(_, inner, rest) => [inner] + Markers(rest)
  }

  predicate StrictlyIncreasing(xs: seq<int>) {
    forall i, j :: 0 <= i < j < |xs| ==> xs[i] < xs[j]
  }

  /** What rendering a source against terms must give; it determines the result. */
  ghost predicate IsRendering(source: string, terms: seq<Term>, r: Rendered) {
    var d, byKey := Parse(source), ByKey(terms);
    && r.html == Html(d, byKey)
    && StrictlyIncreasing(r.entryIds) && Elements(r.entryIds) == BoundIds(d, byKey)
    && r.unknown == UnknownAfter([], d, byKey)
  }

  // ----------------------------------------------------------- its properties

  /** With no terms nothing is rewritten. */
  lemma {:induction false} NoTermsNoChange(d: Doc)
    ensures Html(d, map[]) == Source(d)
  {
    if d.Part? {
      NoTermsNoChange(d.rest);
    }
  }

  /** A piece of output, together with the piece of source it stands for. */
  datatype Emitted = Verbatim(text: string) | Replaced(marker: string, span: string)

  function Trace(d: Doc, byKey: map<string, Term>): seq<Emitted> {
    match d
    case Tail(text) => [Verbatim(text)]
    case Part(text, inner, rest) =>
      [Verbatim(text),
       if Binds(inner, byKey) then Replaced(Marked(inner), Span(inner, byKey)) else Verbatim(Marked(inner))]
      + Trace(rest, byKey)
  }

  function Output(trace: seq<Emitted>): string {
    if trace == [] then ""
    else (match trace[0] case Verbatim(text) => text case Replaced(_, span) => span) + Output(trace[1..])
  }

  function Restored(trace: seq<Emitted>): string {
    if trace == [] then ""
    else (match trace[0] case Verbatim(text) => text case Replaced(marker, _) => marker) + Restored(trace[1..])
  }

  lemma TwoEmitted(text: string, marker: string, piece: string, b: Emitted, more: seq<Emitted>)
    requires b == Replaced(marker, piece) || (b == Verbatim(marker) && piece == marker)
    ensures Output([Verbatim(text), b] + more) == text + piece + Output(more)
    ensures Restored([Verbatim(text), b] + more) == text + (marker + Restored(more))
  {
    var all := [Verbatim(text), b] + more;
    assert all[1..] == [b] + more && ([b] + more)[1..] == more;
    Regroup(text, piece, Output(more));
  }

  lemma Regroup(a: string, b: string, c: string)
    ensures a + (b + c) == a + b + c
  {
  }

  lemma {:induction false} TraceExplains(d: Doc, byKey: map<string, Term>)
    ensures Output(Trace(d, byKey)) == Html(d, byKey)
    ensures Restored(Trace(d, byKey)) == Source(d)
  {
    match d
    case Tail(text) =>
      assert Trace(d, byKey)[1..] == [];
    case Part(text, inner, rest) =>
      TraceExplains(rest, byKey);
      var marker, piece := Marked(inner), Piece(inner, byKey);
      var b := if Binds(inner, byKey) then Replaced(marker, piece) else Verbatim(marker);
      TwoEmitted(text, marker, piece, b, Trace(rest, byKey));
  }

  /** The output is the source with bound markers replaced by spans; putting the markers back gives the source. */
  lemma SpansBackToMarkers(source: string, terms: seq<Term>)
    ensures Output(Trace(Parse(source), ByKey(terms))) == Html(Parse(source), ByKey(terms))
    ensures Restored(Trace(Parse(source), ByKey(terms))) == source
    ensures Html(Parse(source), ByKey([])) == source
  {
    TraceExplains(Parse(source), ByKey(terms));
    ParseIsLossless(source, 0);
    assert source[0..] == source;
    NoTermsNoChange(Parse(source));
  }

  /** The bound entries are exactly those of the markers that bind. */
  lemma {:induction false} BoundIdsAreExact(d: Doc, byKey: map<string, Term>, id: int)
    ensures id in BoundIds(d, byKey) <==>
            exists inner :: inner in Markers(d) && Binds(inner, byKey) && byKey[SplitMarker(inner).0].entryId == id
  {
    if d.Part? {
      BoundIdsAreExact(d.rest, byKey, id);
      assert Markers(d) == [d.inner] + Markers(d.rest);
      assert forall inner :: inner in Markers(d) <==> inner == d.inner || inner in Markers(d.rest);
    }
  }

  /** Each valid key without a term is reported, once, and nothing else is. */
  lemma {:induction false} UnknownIsExact(known: seq<string>, d: Doc, byKey: map<string, Term>, key: string)
    requires Distinct(known)
    ensures Distinct(UnknownAfter(known, d, byKey)) && known <= UnknownAfter(known, d, byKey)
    ensures key in UnknownAfter(known, d, byKey) <==>
            key in known || exists inner ::
              inner in Markers(d) && Unmatched(inner, byKey) && SplitMarker(inner).0 == key
    decreases d
  {
    if d.Part? {
      var k := SplitMarker(d.inner).0;
      var known' := if Unmatched(d.inner, byKey) && k !in known then known + [k] else known;
      UnknownIsExact(known', d.rest, byKey, key);
      assert Markers(d) == [d.inner] + Markers(d.rest);
      assert forall inner :: inner in Markers(d) <==> inner == d.inner || inner in Markers(d.rest);
    }
  }

  /** The unmatched keys of a document, in order, repeats included. */
  function UnmatchedKeys(d: Doc, byKey: map<string, Term>): seq<string> {
    match d
    case Tail(_) => []
    case Part(_, inner, rest) =>
      (if Unmatched(inner, byKey) then [SplitMarker(inner).0] else []) + UnmatchedKeys(rest, byKey)
  }

  /** What is known, followed by the new keys as they are first mentioned. */
  function WithMentions(known: seq<string>, keys: seq<string>): (r: seq<string>)
    ensures known <= r
    decreases |keys|
  {
    if keys == [] then known else WithMentions(if keys[0] in known then known else known + [keys[0]], keys[1..])
  }

  lemma {:induction false} UnknownIsMentions(known: seq<string>, d: Doc, byKey: map<string, Term>)
    ensures UnknownAfter(known, d, byKey) == WithMentions(known, UnmatchedKeys(d, byKey))
    decreases d
  {
    if d.Part? {
      var key := SplitMarker(d.inner).0;
      var keys := UnmatchedKeys(d, byKey);
      UnknownIsMentions(if Unmatched(d.inner, byKey) && key !in known then known + [key] else known, d.rest, byKey);
      assert Unmatched(d.inner, byKey) ==> keys[0] == key && keys[1..] == UnmatchedKeys(d.rest, byKey);
      assert !Unmatched(d.inner, byKey) ==> keys == UnmatchedKeys(d.rest, byKey);
    }
  }

  lemma {:induction false} MentionedBefore(known: seq<string>, keys: seq<string>, i: nat, j: nat) returns (at: nat)
    requires Distinct(known) && |known| <= i < j < |WithMentions(known, keys)|
    ensures var r := WithMentions(known, keys);
            at < |keys| && keys[at] == r[i] && forall k :: 0 <= k <= at ==> keys[k] != r[j]
    decreases |keys|
  {
    var known' := if keys[0] in known then known else known + [keys[0]];
    var r := WithMentions(known, keys);
    MentionsAreDistinct(known, keys);
    var first := FoundIn(known', keys[0]);
    assert r[first] == keys[0];
    if i < |known'| {
      at := 0;
    } else {
      var later := MentionedBefore(known', keys[1..], i, j);
      at := later + 1;
      forall k | 0 <= k <= at
        ensures keys[k] != r[j]
      {
        assert k > 0 ==> keys[k] == keys[1..][k - 1];
      }
    }
  }

  lemma FoundIn(xs: seq<string>, x: string) returns (k: nat)
    requires x in xs
    ensures k < |xs| && xs[k] == x
  {
    k :| 0 <= k < |xs| && xs[k] == x;
  }

  lemma {:induction false} MentionsAreDistinct(known: seq<string>, keys: seq<string>)
    requires Distinct(known)
    ensures Distinct(WithMentions(known, keys))
    decreases |keys|
  {
    if keys != [] {
      MentionsAreDistinct(if keys[0] in known then known else known + [keys[0]], keys[1..]);
    }
  }

  /** Of two keys reported, the one reported first is the one first mentioned. */
  lemma UnknownIsInOrder(d: Doc, byKey: map<string, Term>, i: nat, j: nat) returns (at: nat)
    requires i < j < |UnknownAfter([], d, byKey)|
    ensures var u, keys := UnknownAfter([], d, byKey), UnmatchedKeys(d, byKey);
            at < |keys| && keys[at] == u[i] && forall k :: 0 <= k <= at ==> keys[k] != u[j]
  {
    UnknownIsMentions([], d, byKey);
    at := MentionedBefore([], UnmatchedKeys(d, byKey), i, j);
  }

  lemma {:induction false} EscapedIsInert(s: string)
    ensures forall c :: c in EscapeString(s) ==> c != '<' && c != '>' && c != '\"' && c != '\''
  {
    if s != "" {
      EscapedIsInert(s[1..]);
    }
  }

  /** A term's key needs no escaping, so the reader's look-up key is the marker's. */
  lemma {:induction false} ValidKeysAreTheirOwnEscape(key: string)
    requires forall i :: 0 <= i < |key| ==> KeyChar(key[i])
    ensures EscapeString(key) == key
  {
    if key != "" {
      ValidKeysAreTheirOwnEscape(key[1..]);
    }
  }

  lemma EscapeCharsDiffer(a: char, b: char, x: string, y: string)
    requires EscapeChar(a) + x == EscapeChar(b) + y
    ensures a == b && x == y
  {
    var l, r := EscapeChar(a) + x, EscapeChar(b) + y;
    assert l[0] == r[0];
    assert |EscapeChar(a)| > 1 && |EscapeChar(b)| > 1 ==> l[1] == r[1] && l[2] == r[2] && l[3] == r[3];
    assert a == b;
    assert x == l[|EscapeChar(a)|..] && y == r[|EscapeChar(b)|..];
  }

  /** Different texts are escaped differently. */
  lemma {:induction false} EscapeIsInjective(a: string, b: string)
    requires EscapeString(a) == EscapeString(b)
    ensures a == b
  {
    if a != "" && b != "" {
      EscapeCharsDiffer(a[0], b[0], EscapeString(a[1..]), EscapeString(b[1..]));
      EscapeIsInjective(a[1..], b[1..]);
      assert a == [a[0]] + a[1..] && b == [b[0]] + b[1..];
    }
  }

  // ------------------------------------------------- the order of the terms

  /** Terms that share a key that can bind have one title. */
  ghost predicate TitlesAgree(terms: seq<Term>) {
    forall t, u :: t in terms && u in terms && t.key == u.key && ValidKey(t.key) ==> t.title == u.title
  }

  /** Terms that share a key that can bind are one entry. */
  ghost predicate EntriesAgree(terms: seq<Term>) {
    forall t, u :: t in terms && u in terms && t.key == u.key && ValidKey(t.key) ==> t.entryId == u.entryId
  }

  ghost predicate SameRows(a: seq<Term>, b: seq<Term>) {
    forall t :: t in a <==> t in b
  }

  lemma SameKeys(terms: seq<Term>, shuffled: seq<Term>)
    requires SameRows(terms, shuffled)
    ensures ByKey(terms).Keys == ByKey(shuffled).Keys
  {
    var m, n := ByKey(terms), ByKey(shuffled);
    assert forall k :: k in m ==> m[k] in shuffled && k in n;
    assert forall k :: k in n ==> n[k] in terms && k in m;
  }

  lemma {:induction false} OnlyTitlesShow(d: Doc, m: map<string, Term>, n: map<string, Term>)
    requires m.Keys == n.Keys && forall k :: k in m && ValidKey(k) ==> m[k].title == n[k].title
    ensures Html(d, m) == Html(d, n)
  {
    if d.Part? {
      OnlyTitlesShow(d.rest, m, n);
    }
  }

  lemma {:induction false} OnlyEntriesBind(d: Doc, m: map<string, Term>, n: map<string, Term>)
    requires m.Keys == n.Keys && forall k :: k in m && ValidKey(k) ==> m[k].entryId == n[k].entryId
    ensures BoundIds(d, m) == BoundIds(d, n)
  {
    if d.Part? {
      OnlyEntriesBind(d.rest, m, n);
    }
  }

  /** The term query has no order; the text does not show it when terms sharing a usable key share a title. */
  lemma TermOrderIsHarmless(terms: seq<Term>, shuffled: seq<Term>, source: string)
    requires TitlesAgree(terms) && SameRows(terms, shuffled)
    ensures Html(Parse(source), ByKey(terms)) == Html(Parse(source), ByKey(shuffled))
  {
    var m, n := ByKey(terms), ByKey(shuffled);
    SameKeys(terms, shuffled);
    forall k | k in m && ValidKey(k)
      ensures m[k].title == n[k].title
    {
      assert m[k] in terms && n[k] in terms;
    }
    OnlyTitlesShow(Parse(source), m, n);
  }

  lemma EntryOrderIsHarmless(terms: seq<Term>, shuffled: seq<Term>, source: string)
    requires EntriesAgree(terms) && SameRows(terms, shuffled)
    ensures BoundIds(Parse(source), ByKey(terms)) == BoundIds(Parse(source), ByKey(shuffled))
  {
    var m, n := ByKey(terms), ByKey(shuffled);
    SameKeys(terms, shuffled);
    forall k | k in m && ValidKey(k)
      ensures m[k].entryId == n[k].entryId
    {
      assert m[k] in terms && n[k] in terms;
    }
    OnlyEntriesBind(Parse(source), m, n);
  }

  lemma BareMarkerSplits(key: string)
    requires ValidKey(key)
    ensures SplitMarker(key) == (key, "")
  {
    assert '|' !in key;
    assert TrimSpace(key) == key;
  }

  /** A source that is one bare marker. */
  lemma BareMarker(key: string)
    requires ValidKey(key)
    ensures Parse(Marked(key)) == Part("", key, Tail(""))
    ensures SplitMarker(key) == (key, "")
  {
    var s := Marked(key);
    BareMarkerSplits(key);
    assert s[0..] == s == Source(Part("", key, Tail("")));
    assert forall k :: !PairAt("" + "{", '{', k);
    assert forall k :: !PairAt(key + "}", '}', k) by {
      forall k
        ensures !PairAt(key + "}", '}', k)
      {
        assert 0 <= k < |key| ==> (key + "}")[k] == key[k] != '}';
      }
    }
    assert forall k :: !PairAt("", '{', k);
    ParseIsUnique(s, 0, Part("", key, Tail("")));
  }

  lemma OnePiece(key: string, byKey: map<string, Term>)
    ensures Html(Part("", key, Tail("")), byKey) == Piece(key, byKey)
    ensures BoundIds(Part("", key, Tail("")), byKey)
              == if Binds(key, byKey) then {byKey[SplitMarker(key).0].entryId} else {}
  {
    assert "" + Piece(key, byKey) + "" == Piece(key, byKey);
  }

  lemma BareSpan(key: string, byKey: map<string, Term>)
    requires ValidKey(key) && key in byKey
    ensures Binds(key, byKey) && SplitMarker(key).0 == key
    ensures Span(key, byKey) == SpanOpening(key) + EscapeString(byKey[key].title) + "</span>"
  {
    BareMarkerSplits(key);
  }

  /** A bare marker shows the title of the term its key finds, and binds that term's entry. */
  lemma BareMarkerShows(key: string, byKey: map<string, Term>)
    requires ValidKey(key) && key in byKey
    ensures BoundIds(Parse(Marked(key)), byKey) == {byKey[key].entryId}
    ensures Html(Parse(Marked(key)), byKey) == SpanOpening(key) + EscapeString(byKey[key].title) + "</span>"
  {
    BareMarker(key);
    BareSpan(key, byKey);
    OnePiece(key, byKey);
  }

  lemma SameBetween(before: string, a: string, b: string, after: string)
    requires before + a + after == before + b + after
    ensures a == b
  {
    var l, r := before + a + after, before + b + after;
    assert a == l[|before|..|l| - |after|] && b == r[|before|..|r| - |after|];
  }

  /** Two look-ups that find different titles show different texts. */
  lemma TitlesShow(key: string, m: map<string, Term>, n: map<string, Term>)
    requires ValidKey(key) && key in m && key in n && m[key].title != n[key].title
    ensures Html(Parse(Marked(key)), m) != Html(Parse(Marked(key)), n)
  {
    BareMarkerShows(key, m);
    BareMarkerShows(key, n);
    if Html(Parse(Marked(key)), m) == Html(Parse(Marked(key)), n) {
      SameBetween(SpanOpening(key), EscapeString(m[key].title), EscapeString(n[key].title), "</span>");
      EscapeIsInjective(m[key].title, n[key].title);
    }
  }

  /** What is reported unknown depends on the keys alone, and so never on the order. */
  lemma {:induction false} UnknownIgnoresOrder(known: seq<string>, d: Doc, m: map<string, Term>, n: map<string, Term>)
    requires m.Keys == n.Keys
    ensures UnknownAfter(known, d, m) == UnknownAfter(known, d, n)
    decreases d
  {
    if d.Part? {
      var key := SplitMarker(d.inner).0;
      UnknownIgnoresOrder(if Unmatched(d.inner, m) && key !in known then known + [key] else known, d.rest, m, n);
    }
  }

  /** The rows in an order that reads row `i` last. */
  function ReadLast(terms: seq<Term>, i: nat): (r: seq<Term>)
    requires i < |terms|
    ensures multiset(r) == multiset(terms)
    ensures terms[i].key in ByKey(r) && ByKey(r)[terms[i].key] == terms[i]
  {
    assert terms == terms[..i] + [terms[i]] + terms[i + 1..];
    var others := terms[..i] + terms[i + 1..];
    assert (others + [terms[i]])[..|others|] == others;
    others + [terms[i]]
  }

  lemma ReorderedIsSame(terms: seq<Term>, shuffled: seq<Term>)
    requires multiset(shuffled) == multiset(terms)
    ensures SameRows(terms, shuffled)
  {
    assert forall t :: t in terms <==> t in multiset(terms);
    assert forall t :: t in shuffled <==> t in multiset(shuffled);
  }

  /** Of two rows with one key, reading the other last finds another title. */
  lemma SomeOrderFindsAnother(terms: seq<Term>, t: Term, u: Term) returns (shuffled: seq<Term>)
    requires t in terms && u in terms && t.key == u.key && t.title != u.title
    ensures multiset(shuffled) == multiset(terms) && t.key in ByKey(shuffled)
    ensures ByKey(shuffled)[t.key].title != ByKey(terms)[t.key].title
  {
    var other := if ByKey(terms)[t.key].title == t.title then u else t;
    var i :| 0 <= i < |terms| && terms[i] == other;
    shuffled := ReadLast(terms, i);
    ReorderedIsSame(terms, shuffled);
  }

  /**
    The rendered text of every source is the same in every order of the rows exactly when terms
    sharing a usable key share a title.
   */
  lemma TextIgnoresOrderIff(terms: seq<Term>)
    ensures (forall shuffled, source :: multiset(shuffled) == multiset(terms) ==>
               Html(Parse(source), ByKey(terms)) == Html(Parse(source), ByKey(shuffled)))
            <==> TitlesAgree(terms)
  {
    if TitlesAgree(terms) {
      forall shuffled, source | multiset(shuffled) == multiset(terms)
        ensures Html(Parse(source), ByKey(terms)) == Html(Parse(source), ByKey(shuffled))
      {
        ReorderedIsSame(terms, shuffled);
        TermOrderIsHarmless(terms, shuffled, source);
      }
    } else {
      var t, u :| t in terms && u in terms && t.key == u.key && ValidKey(t.key) && t.title != u.title;
      var shuffled := SomeOrderFindsAnother(terms, t, u);
      TitlesShow(t.key, ByKey(terms), ByKey(shuffled));
    }
  }

  /**
    The bound entries of every source are the same in every order exactly when terms sharing a usable
    key are one entry.
   */
  lemma EntriesIgnoreOrderIff(terms: seq<Term>)
    ensures (forall shuffled, source :: multiset(shuffled) == multiset(terms) ==>
               BoundIds(Parse(source), ByKey(terms)) == BoundIds(Parse(source), ByKey(shuffled)))
            <==> EntriesAgree(terms)
  {
    if EntriesAgree(terms) {
      forall shuffled, source | multiset(shuffled) == multiset(terms)
        ensures BoundIds(Parse(source), ByKey(terms)) == BoundIds(Parse(source), ByKey(shuffled))
      {
        ReorderedIsSame(terms, shuffled);
        EntryOrderIsHarmless(terms, shuffled, source);
      }
    } else {
      var t, u :| t in terms && u in terms && t.key == u.key && ValidKey(t.key) && t.entryId != u.entryId;
      var shuffled := SomeOrderFindsAnotherEntry(terms, t, u);
      BareMarkerShows(t.key, ByKey(terms));
      BareMarkerShows(t.key, ByKey(shuffled));
    }
  }

  lemma SomeOrderFindsAnotherEntry(terms: seq<Term>, t: Term, u: Term) returns (shuffled: seq<Term>)
    requires t in terms && u in terms && t.key == u.key && t.entryId != u.entryId
    ensures multiset(shuffled) == multiset(terms) && t.key in ByKey(shuffled)
    ensures ByKey(shuffled)[t.key].entryId != ByKey(terms)[t.key].entryId
  {
    var other := if ByKey(terms)[t.key].entryId == t.entryId then u else t;
    var i :| 0 <= i < |terms| && terms[i] == other;
    shuffled := ReadLast(terms, i);
    ReorderedIsSame(terms, shuffled);
  }

  /** One key in two groups with two titles: the order the rows come back in decides what is shown. */
  lemma SharedKeysMakeOrderMatter()
    ensures var a, b := Term(1, "k", "x"), Term(2, "k", "y");
            Html(Parse(Marked("k")), ByKey([a, b])) != Html(Parse(Marked("k")), ByKey([b, a]))
  {
    var a, b := Term(1, "k", "x"), Term(2, "k", "y");
    assert [a, b][..1] == [a] && [b, a][..1] == [b];
    TitlesShow("k", ByKey([a, b]), ByKey([b, a]));
  }

  /** One key and one title in two entries: nothing to see, but the order decides which entry is bound. */
  lemma SharedKeysBindEither()
    ensures var a, b := Term(1, "k", "x"), Term(2, "k", "x");
            BoundIds(Parse(Marked("k")), ByKey([a, b])) != BoundIds(Parse(Marked("k")), ByKey([b, a]))
  {
    var a, b := Term(1, "k", "x"), Term(2, "k", "x");
    assert [a, b][..1] == [a] && [b, a][..1] == [b];
    BareMarkerShows("k", ByKey([a, b]));
    BareMarkerShows("k", ByKey([b, a]));
  }

  // --------------------------------------------------------------- the scanner

  /** The bound ids as a sorted list. */
  method SortIds(ids: set<int>) returns (sorted: seq<int>)
    ensures StrictlyIncreasing(sorted) && Elements(sorted) == ids
  {
    sorted := [];
    var rest := ids;
    while rest != {}
      invariant StrictlyIncreasing(sorted)
      invariant forall x :: x in ids <==> x in sorted || x in rest
      invariant forall i, y :: 0 <= i < |sorted| && y in rest ==> sorted[i] < y
      decreases |rest|
    {
      var least := LeastOf(rest);
      sorted := sorted + [least];
      rest := rest - {least};
    }
    assert forall x :: x in Elements(sorted) <==> x in ids;
  }

  /** What one marker adds to the output, the bound entries and the unknown keys. */
  method RenderMarker(inner: string, byKey: map<string, Term>, bound: set<int>, unknown: seq<string>)
    returns (piece: string, bound': set<int>, unknown': seq<string>)
    ensures piece == Piece(inner, byKey)
    ensures bound' == bound + if Binds(inner, byKey) then {byKey[SplitMarker(inner).0].entryId} else {}
    ensures unknown' == if Unmatched(inner, byKey) && SplitMarker(inner).0 !in unknown
                        then unknown + [SplitMarker(inner).0] else unknown
  {
    bound', unknown' := bound, unknown;
    var (key, display) := SplitMarker(inner);
    if !ValidKey(key) {
      piece := Marked(inner);
    } else if key !in byKey {
      piece := Marked(inner);
      if key !in unknown {
        unknown' := unknown + [key];
      }
    } else {
      if display == "" {
        display := byKey[key].title;
      }
      piece := "<span data-k=\"" + EscapeString(key) + "\">" + EscapeString(display) + "</span>";
      bound' := bound + {byKey[key].entryId};
    }
  }

  /** What has been written, with what the rest of the source will add, is the whole rendering. */
  ghost predicate Progress(out: string, bound: set<int>, unknown: seq<string>, rest: Doc, d: Doc,
        byKey: map<string, Term>) {
    && out + Html(rest, byKey) == Html(d, byKey)
    && bound + BoundIds(rest, byKey) == BoundIds(d, byKey)
    && UnknownAfter(unknown, rest, byKey) == UnknownAfter([], d, byKey)
  }

  lemma TextProgress(out: string, text: string, piece: string, more: string, whole: string)
    requires out + (text + piece + more) == whole
    ensures (out + text + piece) + more == whole
  {
    Regroup(out, text + piece, more);
    Regroup(out, text, piece);
  }

  lemma ProgressStep(out: string, bound: set<int>, unknown: seq<string>, text: string, inner: string, rest: Doc, d: Doc,
        byKey: map<string, Term>, out': string, bound': set<int>, unknown': seq<string>)
    requires Progress(out, bound, unknown, Part(text, inner, rest), d, byKey)
    requires out' == out + text + Piece(inner, byKey)
    requires bound' == bound + if Binds(inner, byKey) then {byKey[SplitMarker(inner).0].entryId} else {}
    requires unknown' == if Unmatched(inner, byKey) && SplitMarker(inner).0 !in unknown
                         then unknown + [SplitMarker(inner).0] else unknown
    ensures Progress(out', bound', unknown', rest, d, byKey)
  {
    TextProgress(out, text, Piece(inner, byKey), Html(rest, byKey), Html(d, byKey));
  }

  lemma ProgressEnd(out: string, bound: set<int>, unknown: seq<string>, text: string, d: Doc, byKey: map<string, Term>)
    requires Progress(out, bound, unknown, Tail(text), d, byKey)
    ensures out + text == Html(d, byKey) && bound == BoundIds(d, byKey) && unknown == UnknownAfter([], d, byKey)
  {
  }

  /** Replaces every marker in one pass over the source. */
  method Render(source: string, terms: seq<Term>) returns (r: Rendered)
    ensures IsRendering(source, terms, r)
  {
    ghost var d := Parse(source);
    ParseIsLossless(source, 0);
    assert source[0..] == source;
    var byKey := ByKey(terms);
    var out, bound, unknown := Scan(source, d, byKey);
    var entryIds := SortIds(bound);
    r := Rendered(out, entryIds, unknown);
  }

  /** The next marker at or after `i`: where its braces open and close, or a negative `end` when the rest is text. */
  method NextMarker(source: string, i: nat, ghost rest: Doc) returns (start: int, end: int)
    requires i <= |source| && source[i..] == Source(rest) && Canonical(rest)
    ensures end < 0 ==> rest == Tail(source[i..])
    ensures end >= 0 ==>
              && i <= start && start + 2 <= end <= |source| - 2 && rest.Part?
              && source[i..start] == rest.text && source[start + 2..end] == rest.inner
              && source[PastBraces(end)..] == Source(rest.rest)
  {
    SearchesAgree(source, i, rest);
    end := -1;
    start := IndexPair(source, '{', i);
    if start >= 0 {
      end := IndexPair(source, '}', start);
    }
  }

  /** The index loop: the output, the set of bound entries and the unknown keys. */
  method Scan(source: string, ghost d: Doc, byKey: map<string, Term>)
    returns (out: string, bound: set<int>, unknown: seq<string>)
    requires Source(d) == source && Canonical(d)
    ensures out == Html(d, byKey) && bound == BoundIds(d, byKey) && unknown == UnknownAfter([], d, byKey)
  {
    out, bound, unknown := "", {}, [];
    ghost var rest := d;
    var i := 0;
    while i < |source|
      invariant 0 <= i <= |source|
      invariant Progress(out, bound, unknown, rest, d, byKey)
      invariant source[i..] == Source(rest) && Canonical(rest)
      decreases |source| - i
    {
      var start, end := NextMarker(source, i, rest);
      if end < 0 {
        ProgressEnd(out, bound, unknown, source[i..], d, byKey);
        out := out + source[i..];
        return;
      }
      ghost var before, bound0, unknown0 := out, bound, unknown;
      out := out + source[i..start];
      var piece;
      piece, bound, unknown := RenderMarker(source[start + 2..end], byKey, bound, unknown);
      out := out + piece;
      ProgressStep(before, bound0, unknown0, rest.text, rest.inner, rest.rest, d, byKey, out, bound, unknown);
      i, rest := PastBraces(end), rest.rest;
    }
    EmptySource(rest);
    ProgressEnd(out, bound, unknown, "", d, byKey);
  }

  lemma EmptySource(d: Doc)
    requires Source(d) == ""
    ensures d == Tail("")
  {
  }
}
