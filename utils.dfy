/** Helpers of ksc/utils.py: the parser of the `Link` response header
    (section 3 of RFC 8288), the choice of the page to fetch next, and `ilen`.
    Strings follow Python's `str`: `strip()` and the regex class `\s` use the
    Unicode white-space set, `.` matches anything but a newline, and
    `re.match` anchors the pattern at the start of the text only. */
module Utils {
  import opened Common

  // ---------------------------------------------------------------------------
  // Python string primitives
  // ---------------------------------------------------------------------------

  /** `str.isspace()` for one character; the regex class `\s` matches the same set. */
  predicate IsSpace(c: char)
  {
    c == ' ' || ('\t' <= c <= '\r') || ('\U{1C}' <= c <= '\U{1F}')
    || c == '\U{85}' || c == '\U{A0}' || c == '\U{1680}' || ('\U{2000}' <= c <= '\U{200A}')
    || c == '\U{2028}' || c == '\U{2029}' || c == '\U{202F}' || c == '\U{205F}' || c == '\U{3000}'
  }

  predicate AllSpace(s: string)
  {
    forall i :: 0 <= i < |s| ==> IsSpace(s[i])
  }

  /** The text a regex `.*` can cover: no line break in it. */
  predicate NoNewline(s: string)
  {
    forall i :: 0 <= i < |s| ==> s[i] != '\n'
  }

  /** `s.lstrip()`: the longest suffix of `s` that does not start with white space. */
  function StripLeft(s: string): (r: string)
    ensures |r| <= |s| && r == s[|s| - |r|..]
    ensures AllSpace(s[..|s| - |r|])
    ensures r == [] || !IsSpace(r[0])
  {
    if s != [] && IsSpace(s[0]) then StripLeft(s[1..]) else s
  }

  /** `s.rstrip()`: the longest prefix of `s` that does not end with white space. */
  function StripRight(s: string): (r: string)
    ensures |r| <= |s| && r == s[..|r|]
    ensures AllSpace(s[|r|..])
    ensures r == [] || !IsSpace(r[|r| - 1])
  {
    if s != [] && IsSpace(s[|s| - 1]) then
      var r := StripRight(s[..|s| - 1]);
      assert s[|r|..] == s[..|s| - 1][|r|..] + [s[|s| - 1]];
      r
    else s
  }

  /** `s.strip()`. */
  function Strip(s: string): (r: string)
    ensures |r| <= |s|
    ensures r == [] || (!IsSpace(r[0]) && !IsSpace(r[|r| - 1]))
  {
    StripRight(StripLeft(s))
  }

  lemma {:induction false} StripLeftSkipsSpace(pre: string, s: string)
    requires AllSpace(pre)
    ensures StripLeft(pre + s) == StripLeft(s)
  {
    if pre == [] {
      assert pre + s == s;
    } else {
      assert (pre + s)[0] == pre[0];
      assert (pre + s)[1..] == pre[1..] + s;
      StripLeftSkipsSpace(pre[1..], s);
    }
  }

  lemma {:induction false} StripRightSkipsSpace(s: string, post: string)
    requires AllSpace(post)
    ensures StripRight(s + post) == StripRight(s)
  {
    if post == [] {
      assert s + post == s;
    } else {
      var n := |post|;
      assert (s + post)[|s + post| - 1] == post[n - 1];
      assert (s + post)[..|s + post| - 1] == s + post[..n - 1];
      StripRightSkipsSpace(s, post[..n - 1]);
    }
  }

  /** Stripping removes exactly the white space around a text whose ends are not white space. */
  lemma StripPadded(pre: string, x: string, post: string)
    requires AllSpace(pre) && AllSpace(post)
    requires x == [] || (!IsSpace(x[0]) && !IsSpace(x[|x| - 1]))
    ensures Strip(pre + x + post) == x
  {
    var s := pre + x + post;
    var tail := x + post;
    assert s == pre + tail;
    StripLeftSkipsSpace(pre, tail);
    if x == [] {
      assert tail == post + [];
      StripLeftSkipsSpace(post, []);
      assert StripLeft(s) == [];
    } else {
      assert tail[0] == x[0];
      assert StripLeft(tail) == tail;
      StripRightSkipsSpace(x, post);
      assert StripRight(x) == x;
    }
  }

  /** `s.split(sep)`: the pieces between the separators, at least one. */
  function SplitOn(s: string, sep: char): (parts: seq<string>)
    ensures |parts| >= 1
    ensures forall i :: 0 <= i < |parts| ==> sep !in parts[i]
  {
    if s == [] then [[]]
    else
      var rest := SplitOn(s[1..], sep);
      if s[0] == sep then [[]] + rest else [[s[0]] + rest[0]] + rest[1..]
  }

  /** `sep.join(parts)`. */
  function JoinWith(parts: seq<string>, sep: char): string
  {
    if parts == [] then [] else if |parts| == 1 then parts[0] else parts[0] + [sep] + JoinWith(parts[1..], sep)
  }

  /** Splitting loses nothing: joining the pieces gives the text back. */
  lemma {:induction false} JoinSplit(s: string, sep: char)
    ensures JoinWith(SplitOn(s, sep), sep) == s
  {
    if s != [] {
      var rest := SplitOn(s[1..], sep);
      JoinSplit(s[1..], sep);
      if s[0] == sep {
        assert ([[]] + rest)[1..] == rest;
      } else {
        var parts := [[s[0]] + rest[0]] + rest[1..];
        if |rest| > 1 {
          assert parts[1..] == rest[1..];
        }
      }
    }
  }

  lemma {:induction false} SplitNoSeparator(a: string, sep: char)
    requires sep !in a
    ensures SplitOn(a, sep) == [a]
  {
    if a != [] {
      assert a[0] != sep;
      SplitNoSeparator(a[1..], sep);
      assert [a[0]] + a[1..] == a;
    }
  }

  lemma {:induction false} SplitAfterPiece(a: string, sep: char, b: string)
    requires sep !in a
    ensures SplitOn(a + [sep] + b, sep) == [a] + SplitOn(b, sep)
  {
    if a == [] {
      assert (a + [sep] + b)[1..] == b;
    } else {
      assert (a + [sep] + b)[1..] == a[1..] + [sep] + b;
      SplitAfterPiece(a[1..], sep, b);
      assert [a[0]] + a[1..] == a;
    }
  }

  // ---------------------------------------------------------------------------
  // parse_link_header: the pattern <(?P<url>.*)>;\s*rel="(?P<rel>.*)"
  // ---------------------------------------------------------------------------

  /** One relation of a `Link` header. */
  datatype Link = Link(url: string, rel: string)

  const RelPrefix: string := "rel=\""

  /** No line break in `s[lo..hi]`: the text a regex `.*` can cover there. */
  predicate NoNewlineIn(s: string, lo: int, hi: int)
    requires 0 <= lo <= hi <= |s|
  {
    forall i :: lo <= i < hi ==> s[i] != '\n'
  }

  /** What `\s*` takes from `s[i]` on: the end of the run of white space there. */
  function SkipSpace(s: string, i: int): (j: int)
    requires 0 <= i <= |s|
    ensures i <= j <= |s|
    ensures j == |s| || !IsSpace(s[j])
    decreases |s| - i
  {
    if i < |s| && IsSpace(s[i]) then SkipSpace(s, i + 1) else i
  }

  /** All that `\s*` takes is white space. */
  lemma {:induction false} SkipSpaceTakesSpace(s: string, i: int)
    requires 0 <= i <= |s|
    ensures forall k :: i <= k < SkipSpace(s, i) ==> IsSpace(s[k])
    decreases |s| - i
  {
    if i < |s| && IsSpace(s[i]) {
      SkipSpaceTakesSpace(s, i + 1);
    }
  }

  /** The literal `rel="` starts at `s[i]`. */
  predicate RelAt(s: string, i: int)
    requires 0 <= i
  {
    i + |RelPrefix| <= |s| && s[i] == 'r' && s[i + 1] == 'e' && s[i + 2] == 'l' && s[i + 3] == '=' && s[i + 4] == '"'
  }

  /** The rel group started at `s[lo]` may end just before `s[p]`: `.*` covers `s[lo..p]` and a quote follows. */
  predicate QuoteAt(s: string, lo: int, p: int)
    requires 0 <= lo <= p < |s|
  {
    s[p] == '"' && NoNewlineIn(s, lo, p)
  }

  /** The greedy `(?P<rel>.*)"` from `s[lo]`: the end of the group is tried at
      `q`, then `q - 1`, …, down to `lo`; the result is the first end followed
      by a quote, or `lo - 1` when there is none. */
  function QuoteEnd(s: string, lo: int, q: int): (p: int)
    requires 0 <= lo && lo - 1 <= q < |s|
    ensures lo - 1 <= p <= q
    ensures p >= lo ==> QuoteAt(s, lo, p)
    decreases q - lo + 1
  {
    if q < lo then lo - 1
    else if QuoteAt(s, lo, q) then q
    else QuoteEnd(s, lo, q - 1)
  }

  /** The rel group is greedy: no later quote could have ended it. */
  lemma {:induction false} QuoteEndGreedy(s: string, lo: int, q: int)
    requires 0 <= lo && lo - 1 <= q < |s|
    ensures forall j :: QuoteEnd(s, lo, q) < j <= q ==> !QuoteAt(s, lo, j)
    decreases q - lo + 1
  {
    if q >= lo && !QuoteAt(s, lo, q) {
      QuoteEndGreedy(s, lo, q - 1);
    }
  }

  /** The part of the pattern after the url group, `>;\s*rel="(?P<rel>.*)"`,
      matched from `s[k]`; yields the rel group. `\s*` has to take the whole
      run of white space, because `r` is not white space. */
  function TailAt(s: string, k: int): (r: Option<string>)
    requires 0 <= k <= |s|
    ensures r.Some? ==> k + 2 <= |s| && s[k] == '>' && s[k + 1] == ';' && NoNewline(r.value)
  {
    if k + 2 <= |s| && s[k] == '>' && s[k + 1] == ';' then
      var a := SkipSpace(s, k + 2);
      if RelAt(s, a) then
        var p := QuoteEnd(s, a + |RelPrefix|, |s| - 1);
        if p >= a + |RelPrefix| then Some(s[a + |RelPrefix|..p]) else None
      else None
    else None
  }

  /** Whether the url group may end just before `e[k]`: `.*` covers `e[1..k]` and the tail matches from `k`. */
  predicate UrlEndsAt(e: string, k: int)
    requires 1 <= k <= |e|
  {
    NoNewlineIn(e, 1, k) && TailAt(e, k).Some?
  }

  /** The greedy `<(?P<url>.*)`: the end of the url group is tried at `k`, then
      `k - 1`, …, down to 1; the result is the first end at which the rest of
      the pattern matches, or 0 when none does. */
  function UrlEnd(e: string, k: int): (r: int)
    requires k <= |e|
    ensures 0 <= r <= if k < 0 then 0 else k
    ensures r >= 1 ==> UrlEndsAt(e, r)
    decreases k
  {
    if k < 1 then 0
    else if UrlEndsAt(e, k) then k
    else UrlEnd(e, k - 1)
  }

  /** The url group is greedy: the rest of the pattern matches at no later end. */
  lemma {:induction false} UrlEndGreedy(e: string, k: int)
    requires k <= |e|
    ensures forall j :: UrlEnd(e, k) < j <= k && 1 <= j ==> !UrlEndsAt(e, j)
    decreases k
  {
    if k >= 1 && !UrlEndsAt(e, k) {
      UrlEndGreedy(e, k - 1);
    }
  }

  /** `re.match(pattern, entry)`: anchored at the start of the entry, not at its end. */
  function MatchLink(e: string): (r: Option<Link>)
    ensures r.Some? ==> |e| > |r.value.url| + 1 && e[0] == '<' && e[1..|r.value.url| + 1] == r.value.url
                        && NoNewline(r.value.url) && NoNewline(r.value.rel)
  {
    if |e| >= 1 && e[0] == '<' then
      var k := UrlEnd(e, |e|);
      if k >= 1 then Some(Link(e[1..k], TailAt(e, k).value)) else None
    else None
  }

  /** Each piece stripped. */
  function StripAll(parts: seq<string>): (es: seq<string>)
    ensures |es| == |parts|
    ensures forall i :: 0 <= i < |parts| ==> es[i] == Strip(parts[i])
  {
    if parts == [] then [] else [Strip(parts[0])] + StripAll(parts[1..])
  }

  /** The entries of a header: its comma-separated pieces, stripped. */
  function Entries(header: string): (es: seq<string>)
    ensures |es| == |SplitOn(header, ',')|
    ensures forall i :: 0 <= i < |es| ==> es[i] == Strip(SplitOn(header, ',')[i])
  {
    StripAll(SplitOn(header, ','))
  }

  /** The loop body over the entries: each match sets `rels[rel] = url`; an
      entry that does not match ends the parse (`.groupdict()` of `None`). */
  function AddLinks(rels: map<string, string>, entries: seq<string>): (r: Result<map<string, string>>)
    ensures r.Err? ==> r.error == MalformedLinkHeader
    ensures r.Ok? ==> rels.Keys <= r.value.Keys
    ensures r.Ok? ==> forall rel :: rel in r.value ==>
              (rel in rels && r.value[rel] == rels[rel]) ||
              exists i :: 0 <= i < |entries| && MatchLink(entries[i]) == Some(Link(r.value[rel], rel))
    decreases |entries|
  {
    if entries == [] then Ok(rels)
    else match MatchLink(entries[0])
      case None => Err(MalformedLinkHeader)
      case Some(l) => AddLinks(rels[l.rel := l.url], entries[1..])
  }

  /** What `parse_link_header(header)` returns or raises. */
  function LinkRels(header: string): (r: Result<map<string, string>>)
    ensures r.Err? ==> r.error == MalformedLinkHeader
    ensures r.Ok? ==> forall rel :: rel in r.value ==>
              exists i :: 0 <= i < |Entries(header)| && MatchLink(Entries(header)[i]) == Some(Link(r.value[rel], rel))
  {
    AddLinks(map[], Entries(header))
  }

  /** The loop of `parse_link_header`: one relation per entry, in order. */
  method AddRelations(links: seq<string>) returns (r: Result<map<string, string>>)
    ensures r == AddLinks(map[], links)
  {
    var rels: map<string, string> := map[];
    var i := 0;
    while i < |links|
      invariant 0 <= i <= |links|
      invariant AddLinks(rels, links[i..]) == AddLinks(map[], links)
    {
      assert links[i..][0] == links[i] && links[i..][1..] == links[i + 1..];
      var m := MatchLink(links[i]);
      if m.None? {
        return Err(MalformedLinkHeader);
      }
      rels := rels[m.value.rel := m.value.url];
      i := i + 1;
    }
    assert links[i..] == [];
    return Ok(rels);
  }

  /** `parse_link_header`: splits the header into entries and reads them in order. */
  method ParseLinkHeader(header: string) returns (r: Result<map<string, string>>)
    ensures r == LinkRels(header)
  {
    var links := Entries(header);
    r := AddRelations(links);
  }

  /** `get_next_link`: `None` stands for the `False` the source returns. */
  function GetNextLink(header: string): (r: Result<Option<string>>)
    ensures r.Ok? <==> header == "" || LinkRels(header).Ok?
    ensures r.Ok? && r.value.Some? ==> header != "" && r.value.value in LinkRels(header).value.Values
    ensures header != "" && LinkRels(header).Ok? ==>
              (r.value.Some? <==> "next" in LinkRels(header).value || "last" in LinkRels(header).value)
  {
    if header == "" then Ok(None)
    else
      var links :- LinkRels(header);
      Ok(if "next" in links then Some(links["next"])
         else if "last" in links then Some(links["last"])
         else None)
  }

  // ---------------------------------------------------------------------------
  // Properties of the parser
  // ---------------------------------------------------------------------------

  /** An empty header means "no further page", without parsing. */
  lemma EmptyHeaderHasNoLink()
    ensures GetNextLink("") == Ok(None)
    ensures LinkRels("") == Err(MalformedLinkHeader)
  {
    assert SplitOn("", ',') == [[]];
    assert Entries("") == [""];
  }

  /** The parse fails exactly when one of the stripped entries does not match. */
  lemma {:induction false} AddLinksFails(rels: map<string, string>, entries: seq<string>)
    ensures AddLinks(rels, entries).Err? <==> exists i :: 0 <= i < |entries| && MatchLink(entries[i]).None?
    ensures AddLinks(rels, entries).Err? ==> AddLinks(rels, entries).error == MalformedLinkHeader
    decreases |entries|
  {
    if entries != [] {
      match MatchLink(entries[0])
      case None =>
      case Some(l) =>
        AddLinksFails(rels[l.rel := l.url], entries[1..]);
        if exists i :: 0 <= i < |entries| && MatchLink(entries[i]).None? {
          var i :| 0 <= i < |entries| && MatchLink(entries[i]).None?;
          assert entries[1..][i - 1] == entries[i];
        }
    }
  }

  lemma LinkRelsFailsIffMalformed(header: string)
    ensures LinkRels(header).Err? <==> exists i :: 0 <= i < |Entries(header)| && MatchLink(Entries(header)[i]).None?
    ensures LinkRels(header).Err? ==> LinkRels(header).error == MalformedLinkHeader
  {
    AddLinksFails(map[], Entries(header));
  }

  /** The text `<url>; rel="rel"` of one relation, as servers write it. */
  function Entry(l: Link): string
  {
    "<" + l.url + ">;" + " " + RelPrefix + l.rel + "\""
  }

  /** The relations joined by `, `. */
  function FormatLinkHeader(links: seq<Link>): string
  {
    if links == [] then ""
    else if |links| == 1 then Entry(links[0])
    else Entry(links[0]) + ", " + FormatLinkHeader(links[1..])
  }

  /** A relation whose text survives the splitting and the greedy pattern. */
  predicate WellFormed(l: Link)
  {
    NoNewline(l.url) && ',' !in l.url && NoNewline(l.rel) && ',' !in l.rel && '>' !in l.rel
  }

  /** The map the loop builds from a sequence of relations: later ones overwrite earlier ones. */
  function FoldLinks(rels: map<string, string>, links: seq<Link>): map<string, string>
    decreases |links|
  {
    if links == [] then rels else FoldLinks(rels[links[0].rel := links[0].url], links[1..])
  }

  lemma {:induction false} SkipSpaceOver(s: string, i: int, j: int)
    requires 0 <= i <= j <= |s|
    requires forall k :: i <= k < j ==> IsSpace(s[k])
    requires j == |s| || !IsSpace(s[j])
    ensures SkipSpace(s, i) == j
    decreases j - i
  {
    if i < j {
      SkipSpaceOver(s, i + 1, j);
    }
  }

  /** The tail of a well-formed entry matches from its `>`, with the relation name as its group. */
  lemma EntryTail(e: string, k: int, a: int, r: string)
    requires 0 <= k && k + 2 <= a && a + |RelPrefix| + |r| + 1 == |e|
    requires e[k] == '>' && e[k + 1] == ';' && AllSpace(e[k + 2..a])
    requires e[a..a + |RelPrefix|] == RelPrefix && e[a + |RelPrefix|..|e| - 1] == r && e[|e| - 1] == '"'
    requires NoNewline(r)
    ensures TailAt(e, k) == Some(r)
  {
    var lo := a + |RelPrefix|;
    forall i | k + 2 <= i < a
      ensures IsSpace(e[i])
    {
      assert e[i] == e[k + 2..a][i - k - 2];
    }
    assert e[a] == e[a..lo][0];
    SkipSpaceOver(e, k + 2, a);
    assert RelAt(e, a) by {
      assert e[a..lo][1] == 'e' && e[a..lo][2] == 'l' && e[a..lo][3] == '=' && e[a..lo][4] == '"';
    }
    assert QuoteEnd(e, lo, |e| - 1) == |e| - 1 by {
      assert forall i :: lo <= i < |e| - 1 ==> e[i] == r[i - lo];
      assert QuoteAt(e, lo, |e| - 1);
    }
  }

  /** The match ends the url group at the last `>` when the tail matches there. */
  lemma MatchAtLastAngle(e: string, k: int, r: string)
    requires 1 <= k <= |e| && e[0] == '<'
    requires NoNewlineIn(e, 1, k) && TailAt(e, k) == Some(r)
    requires forall j :: k < j < |e| ==> e[j] != '>'
    ensures MatchLink(e) == Some(Link(e[1..k], r))
  {
    assert UrlEndsAt(e, k);
    UrlEndDescends(e, |e|, k);
  }

  /** The tail of `<u>;ws rel="r"` matches just after the url. */
  lemma EntryTailOf(u: string, ws: string, r: string)
    requires NoNewline(r) && AllSpace(ws)
    ensures TailAt("<" + u + ">;" + ws + RelPrefix + r + "\"", |u| + 1) == Some(r)
  {
    var e := "<" + u + ">;" + ws + RelPrefix + r + "\"";
    var k := |u| + 1;
    var a := k + 2 + |ws|;
    assert e[k + 2..a] == ws;
    assert e[a..a + |RelPrefix|] == RelPrefix;
    assert e[a + |RelPrefix|..|e| - 1] == r;
    EntryTail(e, k, a, r);
  }

  /** Past the url, `<u>;ws rel="r"` has no `>` when `r` has none. */
  lemma EntryAngles(u: string, ws: string, r: string)
    requires '>' !in r && AllSpace(ws)
    ensures var e := "<" + u + ">;" + ws + RelPrefix + r + "\"";
            forall j :: |u| + 1 < j < |e| ==> e[j] != '>'
  {
    var e := "<" + u + ">;" + ws + RelPrefix + r + "\"";
    var after := ";" + ws + RelPrefix + r + "\"";
    assert e == "<" + u + ">" + after;
    assert '>' !in after by {
      assert forall i :: 0 <= i < |ws| ==> ws[i] != '>';
    }
    assert forall j :: |u| + 1 < j < |e| ==> e[j] == after[j - |u| - 2];
  }

  /** Any white space between `;` and `rel=` is accepted, and the url keeps whatever follows `<`. */
  lemma MatchEntry(u: string, ws: string, r: string)
    requires NoNewline(u) && NoNewline(r) && '>' !in r && AllSpace(ws)
    ensures MatchLink("<" + u + ">;" + ws + RelPrefix + r + "\"") == Some(Link(u, r))
  {
    var e := "<" + u + ">;" + ws + RelPrefix + r + "\"";
    var k := |u| + 1;
    assert e == "<" + u + (">;" + ws + RelPrefix + r + "\"");
    assert e[1..k] == u;
    assert NoNewlineIn(e, 1, k) by {
      assert forall i :: 1 <= i < k ==> e[i] == u[i - 1];
    }
    EntryTailOf(u, ws, r);
    EntryAngles(u, ws, r);
    MatchAtLastAngle(e, k, r);
  }

  lemma {:induction false} UrlEndDescends(e: string, k: int, K: int)
    requires 1 <= K <= k <= |e|
    requires UrlEndsAt(e, K)
    requires forall j :: K < j <= k ==> !UrlEndsAt(e, j)
    ensures UrlEnd(e, k) == K
    decreases k
  {
    if k > K {
      UrlEndDescends(e, k - 1, K);
    }
  }

  lemma MatchWellFormedEntry(l: Link)
    requires WellFormed(l)
    ensures MatchLink(Entry(l)) == Some(l)
  {
    MatchEntry(l.url, " ", l.rel);
  }

  /** The text of a well-formed relation has no comma, so splitting keeps it whole. */
  lemma CommaFreeEntry(l: Link)
    requires WellFormed(l)
    ensures ',' !in Entry(l)
  {
    assert ',' !in ">;" + " " + RelPrefix;
  }

  /** The text of a relation starts with `<` and ends with a quote, so stripping keeps it whole. */
  lemma StrippedEntry(l: Link)
    ensures Strip(Entry(l)) == Entry(l)
  {
    var e := Entry(l);
    assert e[0] == '<';
    assert StripLeft(e) == e;
    assert e[|e| - 1] == '"';
    assert StripRight(e) == e;
  }

  /** The blank after a separating comma is stripped away. */
  lemma EntriesAfterSpace(b: string)
    ensures Entries([' '] + b) == Entries(b)
  {
    var ps := SplitOn(b, ',');
    assert ([' '] + b)[1..] == b;
    var qs := [[' '] + ps[0]] + ps[1..];
    assert SplitOn([' '] + b, ',') == qs;
    assert Strip(qs[0]) == Strip(ps[0]) by {
      assert AllSpace([' ']);
      StripLeftSkipsSpace([' '], ps[0]);
    }
    assert qs[1..] == ps[1..];
  }

  /** A piece without a comma, followed by `, `, becomes the first entry, whatever follows. */
  lemma EntriesAfterSeparator(a: string, b: string)
    requires ',' !in a
    ensures Entries(a + ", " + b) == [Strip(a)] + Entries(b)
  {
    assert a + ", " + b == a + [','] + ([' '] + b);
    SplitAfterPiece(a, ',', [' '] + b);
    EntriesAfterSpace(b);
  }

  /** The entry texts of a sequence of relations. */
  function EntryTexts(links: seq<Link>): (es: seq<string>)
    ensures |es| == |links|
  {
    if links == [] then [] else [Entry(links[0])] + EntryTexts(links[1..])
  }

  /** A header of one well-formed relation has that relation's text as its only entry. */
  lemma SingleEntry(l: Link)
    requires WellFormed(l)
    ensures Entries(Entry(l)) == [Entry(l)]
  {
    CommaFreeEntry(l);
    StrippedEntry(l);
    SplitNoSeparator(Entry(l), ',');
  }

  /** A well-formed relation followed by `, ` is the first entry, whatever follows. */
  lemma LeadingEntry(l: Link, rest: string)
    requires WellFormed(l)
    ensures Entries(Entry(l) + ", " + rest) == [Entry(l)] + Entries(rest)
  {
    CommaFreeEntry(l);
    StrippedEntry(l);
    EntriesAfterSeparator(Entry(l), rest);
  }

  /** The stripped pieces of a formatted header are the entries of its relations. */
  lemma {:induction false} EntriesOfFormatted(links: seq<Link>)
    requires |links| >= 1
    requires forall i :: 0 <= i < |links| ==> WellFormed(links[i])
    ensures Entries(FormatLinkHeader(links)) == EntryTexts(links)
  {
    if |links| == 1 {
      SingleEntry(links[0]);
    } else {
      var tail := links[1..];
      EntriesOfFormatted(tail);
      LeadingEntry(links[0], FormatLinkHeader(tail));
    }
  }

  lemma {:induction false} AddFormatted(rels: map<string, string>, links: seq<Link>)
    requires forall i :: 0 <= i < |links| ==> WellFormed(links[i])
    ensures AddLinks(rels, EntryTexts(links)) == Ok(FoldLinks(rels, links))
    decreases |links|
  {
    if links != [] {
      MatchWellFormedEntry(links[0]);
      assert EntryTexts(links)[1..] == EntryTexts(links[1..]);
      AddFormatted(rels[links[0].rel := links[0].url], links[1..]);
    }
  }

  /** Round trip: parsing a formatted header gives the map of its relations,
      the last relation of a name winning. */
  lemma ParseFormatted(links: seq<Link>)
    requires |links| >= 1
    requires forall i :: 0 <= i < |links| ==> WellFormed(links[i])
    ensures FormatLinkHeader(links) != ""
    ensures LinkRels(FormatLinkHeader(links)) == Ok(FoldLinks(map[], links))
  {
    EntriesOfFormatted(links);
    AddFormatted(map[], links);
    assert Entry(links[0])[0] == '<';
    if |links| > 1 {
      assert FormatLinkHeader(links)[0] == Entry(links[0])[0];
    }
  }

  /** A relation name that no link carries keeps its earlier value, or stays absent. */
  lemma {:induction false} FoldLinksUntouched(rels: map<string, string>, links: seq<Link>, rel: string)
    requires forall j :: 0 <= j < |links| ==> links[j].rel != rel
    ensures rel in FoldLinks(rels, links) <==> rel in rels
    ensures rel in rels ==> FoldLinks(rels, links)[rel] == rels[rel]
    decreases |links|
  {
    if links != [] {
      FoldLinksUntouched(rels[links[0].rel := links[0].url], links[1..], rel);
    }
  }

  /** The last relation of a name wins. */
  lemma {:induction false} FoldLinksLastWins(rels: map<string, string>, links: seq<Link>, i: nat)
    requires i < |links|
    requires forall j :: i < j < |links| ==> links[j].rel != links[i].rel
    ensures links[i].rel in FoldLinks(rels, links)
    ensures FoldLinks(rels, links)[links[i].rel] == links[i].url
    decreases |links|
  {
    if i == 0 {
      FoldLinksUntouched(rels[links[0].rel := links[0].url], links[1..], links[0].rel);
    } else {
      FoldLinksLastWins(rels[links[0].rel := links[0].url], links[1..], i - 1);
    }
  }

  /** `get_next_link` follows `next` even when `last` is present too. */
  lemma NextPreferred(links: seq<Link>, i: nat)
    requires forall k :: 0 <= k < |links| ==> WellFormed(links[k])
    requires i < |links| && links[i].rel == "next"
    requires forall j :: i < j < |links| ==> links[j].rel != "next"
    ensures GetNextLink(FormatLinkHeader(links)) == Ok(Some(links[i].url))
  {
    ParseFormatted(links);
    FoldLinksLastWins(map[], links, i);
  }

  /** Without `next`, `get_next_link` follows `last`. */
  lemma LastFallback(links: seq<Link>, i: nat)
    requires forall k :: 0 <= k < |links| ==> WellFormed(links[k])
    requires forall k :: 0 <= k < |links| ==> links[k].rel != "next"
    requires i < |links| && links[i].rel == "last"
    requires forall j :: i < j < |links| ==> links[j].rel != "last"
    ensures GetNextLink(FormatLinkHeader(links)) == Ok(Some(links[i].url))
  {
    ParseFormatted(links);
    FoldLinksUntouched(map[], links, "next");
    FoldLinksLastWins(map[], links, i);
  }

  /** With neither `next` nor `last`, there is no page to follow. */
  lemma NeitherNextNorLast(links: seq<Link>)
    requires |links| >= 1
    requires forall k :: 0 <= k < |links| ==> WellFormed(links[k])
    requires forall k :: 0 <= k < |links| ==> links[k].rel != "next" && links[k].rel != "last"
    ensures GetNextLink(FormatLinkHeader(links)) == Ok(None)
  {
    ParseFormatted(links);
    FoldLinksUntouched(map[], links, "next");
    FoldLinksUntouched(map[], links, "last");
  }

  // ---------------------------------------------------------------------------
  // ilen
  // ---------------------------------------------------------------------------

  /** The fold of `functools.reduce(lambda x, y: x + 1, xs, acc)`. */
  function CountFrom<T>(acc: nat, xs: seq<T>): nat
    decreases |xs|
  {
    if xs == [] then acc else CountFrom(acc + 1, xs[1..])
  }

  lemma {:induction false} CountFromAdds<T>(acc: nat, xs: seq<T>)
    ensures CountFrom(acc, xs) == acc + |xs|
    decreases |xs|
  {
    if xs != [] {
      CountFromAdds(acc + 1, xs[1..]);
    }
  }

  /** `ilen(xs)`: the number of elements. */
  function ILen<T>(xs: seq<T>): (n: nat)
    ensures n == |xs|
  {
    CountFromAdds(0, xs);
    CountFrom(0, xs)
  }
}
