/** Serving HLS media playlists: the sliding manifest renderer, what a player reads of
    its output, and when the served file only grows. A playlist is a sequence of lines. */
module Manifest {
  import opened Prelude
  import opened HlsText
  import P = Playback

  const KEY := "#EXT-X-KEY"
  const PLAYLIST_TYPE := "#EXT-X-PLAYLIST-TYPE"
  const ENDLIST := "#EXT-X-ENDLIST"
  const EVENT := PLAYLIST_TYPE + ":EVENT"
  const URI_ATTR := "URI=\""

  /** Where the rewritten URIs point; the base is always an absolute URL. */
  datatype RawSite = Site(base: string, token: string)

  type Site = s: RawSite | "http" <= s.base witness Site("http", "")

  function SegUrl(site: Site, name: string): string { site.base + "/seg/" + name + "?t=" + site.token }

  function KeyUrl(site: Site): string { site.base + "/key?t=" + site.token }

  // ---------- Line kinds, in the order the renderer tests them ----------

  datatype Kind = Inf | Key | PlaylistType | EndList | Tag | Segment(index: nat) | Foreign

  function KindOf(line: string): Kind {
    var t := Strip(line);
    if EXTINF <= t then Inf
    else if KEY <= t then Key
    else if PLAYLIST_TYPE <= t then PlaylistType
    else if ENDLIST <= t then EndList
    else if t == [] || t[0] == '#' then Tag
    else
      match NameIndex(t, 4, Some(6))
      case Some(i) => Segment(i)
      case None => Foreign
  }

  lemma AbsoluteUrlIsForeign(line: string)
    requires "http" <= line
    ensures KindOf(line) == Foreign
  {
    StripKeepsTag(line, "http");
    assert Strip(line)[0] == 'h';
  }

  lemma SegUrlIsForeign(site: Site, name: string)
    ensures KindOf(SegUrl(site, name)) == Foreign
  {
    AbsoluteUrlIsForeign(SegUrl(site, name));
  }

  // ---------- re.sub(r'URI="[^"]+"', ...) ----------

  function QuoteAt(s: string): (n: nat)
    ensures n <= |s| && '"' !in s[..n]
    ensures n < |s| ==> s[n] == '"'
  {
    if s == [] || s[0] == '"' then 0 else 1 + QuoteAt(s[1..])
  }

  /** Length of a match of URI="[^"]+" at the start of the text, 0 if there is none. */
  function UriMatch(s: string): (n: nat)
    ensures n <= |s|
    ensures n > 0 ==> URI_ATTR <= s
  {
    if URI_ATTR <= s then
      var q := QuoteAt(s[5..]);
      if 0 < q < |s| - 5 then 5 + q + 1 else 0
    else 0
  }

  function RewriteUri(line: string, url: string): string {
    if line == [] then []
    else if UriMatch(line) > 0 then URI_ATTR + url + "\"" + RewriteUri(line[UriMatch(line)..], url)
    else [line[0]] + RewriteUri(line[1..], url)
  }

  lemma RewriteKeeps(s: string, url: string)
    requires s != [] && s[0] != 'U'
    ensures RewriteUri(s, url) == [s[0]] + RewriteUri(s[1..], url)
  {
    assert URI_ATTR[0] == 'U';
  }

  lemma {:induction false} RewriteSkips(pre: string, rest: string, url: string)
    requires 'U' !in pre
    ensures RewriteUri(pre + rest, url) == pre + RewriteUri(rest, url)
  {
    hide RewriteUri;
    if pre == [] {
      assert pre + rest == rest;
    } else {
      assert (pre + rest)[0] == pre[0] && (pre + rest)[1..] == pre[1..] + rest;
      RewriteKeeps(pre + rest, url);
      RewriteSkips(pre[1..], rest, url);
    }
  }

  lemma QuoteEndsAt(s: string, rest: string)
    requires '"' !in s
    ensures QuoteAt(s + "\"" + rest) == |s|
  {
    if s == [] {
      assert s + "\"" + rest == "\"" + rest;
    } else {
      assert (s + "\"" + rest)[1..] == s[1..] + "\"" + rest;
      QuoteEndsAt(s[1..], rest);
    }
  }

  /** URI=" does not occur in the text. */
  ghost predicate NoUri(s: string) { forall j :: 0 <= j <= |s| ==> !(URI_ATTR <= s[j..]) }

  lemma {:induction false} RewriteWithoutUri(s: string, url: string)
    requires NoUri(s)
    ensures RewriteUri(s, url) == s
  {
    if s != [] {
      assert s[0..] == s;
      forall j | 0 <= j <= |s[1..]| ensures !(URI_ATTR <= s[1..][j..]) {
        assert s[1..][j..] == s[j + 1..];
      }
      RewriteWithoutUri(s[1..], url);
    }
  }

  /** Text without a URI attribute, followed by one, has its first match there. */
  lemma {:induction false} RewriteReaches(pre: string, rest: string, url: string)
    requires NoUri(pre) && URI_ATTR <= rest
    ensures RewriteUri(pre + rest, url) == pre + RewriteUri(rest, url)
  {
    hide RewriteUri;
    if pre == [] {
      assert pre + rest == rest;
    } else {
      var all := pre + rest;
      assert all[0] == pre[0] && all[1..] == pre[1..] + rest;
      assert !(URI_ATTR <= all) by {
        assert pre[0..] == pre;
        if URI_ATTR <= all {
          Straddles(pre, rest);
        }
      }
      RewriteStep(all, url);
      forall j | 0 <= j <= |pre[1..]| ensures !(URI_ATTR <= pre[1..][j..]) {
        assert pre[1..][j..] == pre[j + 1..];
      }
      RewriteReaches(pre[1..], rest, url);
    }
  }

  lemma RewriteStep(s: string, url: string)
    requires s != [] && !(URI_ATTR <= s)
    ensures RewriteUri(s, url) == [s[0]] + RewriteUri(s[1..], url)
  {
  }

  /** The attribute cannot begin inside `pre` and end inside a text that begins with it. */
  lemma Straddles(pre: string, rest: string)
    requires pre != [] && URI_ATTR <= rest && URI_ATTR <= pre + rest
    ensures URI_ATTR <= pre
  {
    var all := pre + rest;
    assert all[|pre|] == rest[0] == URI_ATTR[0] == 'U';
    assert URI_ATTR[1] == 'R' && URI_ATTR[2] == 'I' && URI_ATTR[3] == '=' && URI_ATTR[4] == '"';
    assert forall k :: 0 < k < 5 ==> all[k] == URI_ATTR[k] != 'U';
    assert forall k :: 0 <= k < 5 ==> pre[k] == all[k];
  }

  /** A key line with one URI attribute has its URI replaced and keeps everything else. */
  lemma KeyLineRewritten(pre: string, placeholder: string, post: string, url: string)
    requires NoUri(pre) && NoUri(post) && placeholder != [] && '"' !in placeholder
    ensures RewriteUri(pre + (URI_ATTR + placeholder + "\"" + post), url) == pre + (URI_ATTR + url + "\"" + post)
  {
    var field := URI_ATTR + placeholder + "\"" + post;
    assert field[5..] == placeholder + "\"" + post;
    QuoteEndsAt(placeholder, post);
    assert UriMatch(field) == 5 + |placeholder| + 1;
    assert field[UriMatch(field)..] == post;
    RewriteWithoutUri(post, url);
    assert RewriteUri(field, url) == URI_ATTR + url + "\"" + post;
    assert URI_ATTR <= field;
    RewriteReaches(pre, field, url);
  }

  lemma LStripSplits(s: string) returns (k: nat)
    ensures k <= |s| && LStrip(s) == s[k..] && forall i :: 0 <= i < k ==> IsSpace(s[i])
  {
    if s != [] && IsSpace(s[0]) {
      var j := LStripSplits(s[1..]);
      k := j + 1;
      forall i | 0 <= i < k ensures IsSpace(s[i]) {
        assert i > 0 ==> s[i] == s[1..][i - 1];
      }
      assert s[1..][j..] == s[k..];
    } else {
      k := 0;
    }
  }

  lemma LStripDrops(spaces: string, s: string)
    requires forall i :: 0 <= i < |spaces| ==> IsSpace(spaces[i])
    requires s != [] && !IsSpace(s[0])
    ensures LStrip(spaces + s) == s
  {
    if spaces == [] {
      assert spaces + s == s;
    } else {
      assert (spaces + s)[1..] == spaces[1..] + s;
      LStripDrops(spaces[1..], s);
    }
  }

  lemma RStripIsPrefix(s: string)
    ensures RStrip(s) <= s
  {
  }

  /** A key line is leading white space, the tag, and a rest the URI lives in. */
  lemma KeyLineSplits(line: string) returns (spaces: string, rest: string)
    requires KEY <= Strip(line)
    ensures line == spaces + (KEY + rest)
    ensures forall i :: 0 <= i < |spaces| ==> IsSpace(spaces[i])
  {
    var k := LStripSplits(line);
    RStripIsPrefix(line[k..]);
    spaces, rest := line[..k], line[k..][|KEY|..];
    assert KEY + rest == line[k..];
  }

  lemma SpacedKeyIsKey(spaces: string, rest: string)
    requires forall i :: 0 <= i < |spaces| ==> IsSpace(spaces[i])
    ensures KindOf(spaces + (KEY + rest)) == Key
  {
    LStripDrops(spaces, KEY + rest);
    RStripKeepsPrefix(KEY + rest, KEY);
    assert KEY[4] == '-' && EXTINF[4] == 'I';
  }

  lemma RewriteAfterTag(spaces: string, tag: string, rest: string, url: string)
    requires 'U' !in spaces && 'U' !in tag
    ensures RewriteUri(spaces + (tag + rest), url) == spaces + (tag + RewriteUri(rest, url))
  {
    RewriteSkips(tag, rest, url);
    RewriteSkips(spaces, tag + rest, url);
  }

  lemma KeyStaysKey(line: string, url: string)
    requires KindOf(line) == Key
    ensures KindOf(RewriteUri(line, url)) == Key
  {
    var spaces, rest := KeyLineSplits(line);
    RewriteAfterTag(spaces, KEY, rest, url);
    SpacedKeyIsKey(spaces, RewriteUri(rest, url));
  }

  // ---------- Rendering ----------

  predicate Hides(ceiling: Option<int>, index: nat) { ceiling.Some? && index > ceiling.value }

  function Flush(pending: Option<string>): seq<string> {
    if pending.Some? then [pending.value] else []
  }

  /** The renderer's loop state: the buffered EXTINF, and whether a segment was dropped. */
  datatype Carry = Carry(pending: Option<string>, truncated: bool)
  {
    ghost predicate Buffered() { pending.Some? ==> KindOf(pending.value).Inf? }
  }

  const START := Carry(None, false)

  /** What one source line contributes to the served playlist. */
  function Emit(line: string, ceiling: Option<int>, site: Site, carry: Carry): seq<string> {
    match KindOf(line)
    case Inf => []
    case Key => [RewriteUri(line, KeyUrl(site))]
    case PlaylistType => [if ceiling.Some? then EVENT else line]
    case EndList => if ceiling.Some? && carry.truncated then [] else [line]
    case Tag => [line]
    case Foreign => Flush(carry.pending) + [line]
    case Segment(i) => if Hides(ceiling, i) then [] else Flush(carry.pending) + [SegUrl(site, Strip(line))]
  }

  function Next(line: string, ceiling: Option<int>, carry: Carry): Carry {
    match KindOf(line)
    case Inf => carry.(pending := Some(line))
    case Foreign => carry.(pending := None)
    case Segment(i) => Carry(None, carry.truncated || Hides(ceiling, i))
    case _ => carry
  }

  function RenderFrom(lines: seq<string>, ceiling: Option<int>, site: Site, carry: Carry): seq<string> {
    if lines == [] then []
    else Emit(lines[0], ceiling, site, carry) + RenderFrom(lines[1..], ceiling, site, Next(lines[0], ceiling, carry))
  }

  function Rendered(lines: seq<string>, ceiling: Option<int>, site: Site): seq<string> {
    RenderFrom(lines, ceiling, site, START)
  }

  /** The playlist a learner with this progress row is served. */
  function Playlist(c: P.Settings, p: P.Progress, lines: seq<string>, site: Site): seq<string> {
    Rendered(lines, Some(P.VisibleCeiling(c, p.watermark)), site)
  }

  method RenderManifest(lines: seq<string>, ceiling: Option<int>, site: Site) returns (out: seq<string>)
    ensures out == Rendered(lines, ceiling, site)
  {
    RenderDone(ceiling, site);
    hide KindOf, RewriteUri, RenderFrom, SegUrl, KeyUrl;
    var sliding := ceiling.Some?;
    out := [];
    var pendingExtinf: Option<string> := None;
    var sawTruncation := false;
    for n := 0 to |lines|
      invariant Rendered(lines, ceiling, site)
             == out + RenderFrom(lines[n..], ceiling, site, Carry(pendingExtinf, sawTruncation))
    {
      var line := lines[n];
      ghost var served, carry := out, Carry(pendingExtinf, sawTruncation);
      match KindOf(line) {
        case Inf =>
          pendingExtinf := Some(line);
        case Key =>
          out := out + [RewriteUri(line, KeyUrl(site))];
        case PlaylistType =>
          out := out + [if sliding then EVENT else line];
        case EndList =>
          if !(sliding && sawTruncation) {
            out := out + [line];
          }
        case Tag =>
          out := out + [line];
        case Foreign =>
          if pendingExtinf.Some? {
            out := out + [pendingExtinf.value];
            pendingExtinf := None;
          }
          out := out + [line];
        case Segment(i) =>
          if sliding && i > ceiling.value {
            pendingExtinf := None;
            sawTruncation := true;
          } else {
            if pendingExtinf.Some? {
              out := out + [pendingExtinf.value];
              pendingExtinf := None;
            }
            out := out + [SegUrl(site, Strip(line))];
          }
      }
      RenderTail(lines, n, ceiling, site, carry);
      assert Carry(pendingExtinf, sawTruncation) == Next(line, ceiling, carry);
      assert out == served + Emit(line, ceiling, site, carry);
      Regroup(served, Emit(line, ceiling, site, carry),
              RenderFrom(lines[n + 1..], ceiling, site, Next(line, ceiling, carry)));
    }
    assert lines[|lines|..] == [];
  }

  lemma RenderDone(ceiling: Option<int>, site: Site)
    ensures forall carry :: RenderFrom([], ceiling, site, carry) == []
  {
  }

  lemma RenderTail(lines: seq<string>, n: nat, ceiling: Option<int>, site: Site, carry: Carry)
    requires n < |lines|
    ensures RenderFrom(lines[n..], ceiling, site, carry)
         == Emit(lines[n], ceiling, site, carry)
          + RenderFrom(lines[n + 1..], ceiling, site, Next(lines[n], ceiling, carry))
  {
    assert lines[n..][1..] == lines[n + 1..];
  }

  // ---------- What the packager wrote and what the player reads ----------

  /** A media line of the source with the EXTINF that introduced it. */
  datatype Entry = Entry(inf: Option<string>, index: Option<nat>, uri: string)

  function EntryOf(line: string, pending: Option<string>): (es: seq<Entry>)
    ensures |es| <= 1
  {
    match KindOf(line)
    case Segment(i) => [Entry(pending, Some(i), Strip(line))]
    case Foreign => [Entry(pending, None, line)]
    case _ => []
  }

  /** The buffered EXTINF after a line, in the unrendered playlist's own reading. */
  function PendingNext(line: string, pending: Option<string>): Option<string> {
    match KindOf(line)
    case Inf => Some(line)
    case Segment(_) => None
    case Foreign => None
    case _ => pending
  }

  function EntriesFrom(lines: seq<string>, pending: Option<string>): seq<Entry> {
    if lines == [] then []
    else EntryOf(lines[0], pending) + EntriesFrom(lines[1..], PendingNext(lines[0], pending))
  }

  function Entries(lines: seq<string>): seq<Entry> { EntriesFrom(lines, None) }

  /** The window test. Media lines that are not packaged segments are always shown. */
  predicate Shown(e: Entry, ceiling: Option<int>) { e.index.Some? ==> !Hides(ceiling, e.index.value) }

  function Visible(es: seq<Entry>, ceiling: Option<int>): seq<Entry> {
    if es == [] then []
    else (if Shown(es[0], ceiling) then [es[0]] else []) + Visible(es[1..], ceiling)
  }

  /** One media line as a player sees it, with the EXTINF on the line directly above. */
  datatype Listed = Listed(inf: Option<string>, uri: string)

  function Served(site: Site, es: seq<Entry>): (ls: seq<Listed>)
    ensures |ls| == |es|
  {
    seq(|es|, i requires 0 <= i < |es| =>
      Listed(es[i].inf, if es[i].index.Some? then SegUrl(site, es[i].uri) else es[i].uri))
  }

  function ListingFrom(lines: seq<string>, above: Option<string>): seq<Listed> {
    if lines == [] then []
    else
      match KindOf(lines[0])
      case Inf => ListingFrom(lines[1..], Some(lines[0]))
      case Segment(_) => [Listed(above, lines[0])] + ListingFrom(lines[1..], None)
      case Foreign => [Listed(above, lines[0])] + ListingFrom(lines[1..], None)
      case _ => ListingFrom(lines[1..], None)
  }

  function Listing(lines: seq<string>): seq<Listed> { ListingFrom(lines, None) }

  lemma ListingSkipsTag(line: string, rest: seq<string>)
    requires KindOf(line).Key? || KindOf(line).PlaylistType? || KindOf(line).EndList? || KindOf(line).Tag?
    ensures Listing([line] + rest) == Listing(rest)
  {
    assert ([line] + rest)[1..] == rest;
  }

  lemma ListingTakesMedia(pending: Option<string>, uri: string, rest: seq<string>)
    requires pending.Some? ==> KindOf(pending.value).Inf?
    requires KindOf(uri).Foreign?
    ensures Listing(Flush(pending) + [uri] + rest) == [Listed(pending, uri)] + Listing(rest)
  {
    assert ([uri] + rest)[1..] == rest;
    if pending.Some? {
      var all := Flush(pending) + [uri] + rest;
      assert all[0] == pending.value && all[1..] == [uri] + rest;
      assert ListingFrom([uri] + rest, pending) == [Listed(pending, uri)] + Listing(rest);
    } else {
      assert Flush(pending) + [uri] + rest == [uri] + rest;
    }
  }

  lemma EventLineIsType()
    ensures KindOf(EVENT) == PlaylistType
  {
    StripTight(EVENT);
    assert EVENT[4] == '-' && EXTINF[4] == 'I';
    assert EVENT[7] == 'P' && KEY[7] == 'K';
  }

  /** One line: what it emits is what its entry, if it is shown, looks like. */
  lemma ListingOfLine(line: string, rest: seq<string>, ceiling: Option<int>, site: Site, carry: Carry)
    requires carry.Buffered()
    ensures Next(line, ceiling, carry).Buffered()
    ensures Listing(Emit(line, ceiling, site, carry) + rest)
         == Served(site, Visible(EntryOf(line, carry.pending), ceiling)) + Listing(rest)
  {
    hide KindOf, RewriteUri, Strip;
    match KindOf(line) {
      case Inf => assert [] + rest == rest;
      case Key =>
        KeyStaysKey(line, KeyUrl(site));
        ListingSkipsTag(RewriteUri(line, KeyUrl(site)), rest);
      case PlaylistType =>
        EventLineIsType();
        ListingSkipsTag(if ceiling.Some? then EVENT else line, rest);
      case EndList =>
        assert [] + rest == rest;
        ListingSkipsTag(line, rest);
      case Tag =>
        ListingSkipsTag(line, rest);
      case Foreign =>
        ListingTakesMedia(carry.pending, line, rest);
      case Segment(i) =>
        SegUrlIsForeign(site, Strip(line));
        if Hides(ceiling, i) {
          assert [] + rest == rest;
        } else {
          ListingTakesMedia(carry.pending, SegUrl(site, Strip(line)), rest);
        }
    }
  }

  lemma ServedAppend(site: Site, a: seq<Entry>, b: seq<Entry>)
    ensures Served(site, a + b) == Served(site, a) + Served(site, b)
  {
  }

  lemma {:induction false} ListingOfRendered(lines: seq<string>, ceiling: Option<int>, site: Site, carry: Carry)
    requires carry.Buffered()
    ensures Listing(RenderFrom(lines, ceiling, site, carry))
         == Served(site, Visible(EntriesFrom(lines, carry.pending), ceiling))
    decreases |lines|
  {
    if lines != [] {
      var next := Next(lines[0], ceiling, carry);
      var e, es := EntryOf(lines[0], carry.pending), EntriesFrom(lines[1..], next.pending);
      ListingOfLine(lines[0], RenderFrom(lines[1..], ceiling, site, next), ceiling, site, carry);
      ListingOfRendered(lines[1..], ceiling, site, next);
      VisibleAppend(e, es, ceiling);
      ServedAppend(site, Visible(e, ceiling), Visible(es, ceiling));
      assert EntriesFrom(lines, carry.pending) == e + es;
    }
  }

  /** The player reads exactly the window of the source: each shown media line,
      in order, directly below the EXTINF that introduced it in the source, and
      nothing of a hidden segment (section 4.3.2.1 of RFC 8216). */
  lemma PlayerSeesWindow(lines: seq<string>, ceiling: Option<int>, site: Site)
    ensures Listing(Rendered(lines, ceiling, site)) == Served(site, Visible(Entries(lines), ceiling))
  {
    ListingOfRendered(lines, ceiling, site, START);
  }

  // ---------- Header lines ----------

  predicate IsHeader(line: string) { KindOf(line).Key? || KindOf(line).PlaylistType? || KindOf(line).Tag? }

  function Headers(lines: seq<string>): seq<string> {
    if lines == [] then []
    else (if IsHeader(lines[0]) then [lines[0]] else []) + Headers(lines[1..])
  }

  function Rewritten(line: string, ceiling: Option<int>, site: Site): string {
    match KindOf(line)
    case Key => RewriteUri(line, KeyUrl(site))
    case PlaylistType => if ceiling.Some? then EVENT else line
    case _ => line
  }

  function RewrittenAll(hs: seq<string>, ceiling: Option<int>, site: Site): seq<string> {
    seq(|hs|, i requires 0 <= i < |hs| => Rewritten(hs[i], ceiling, site))
  }

  lemma HeadersStep(lines: seq<string>)
    requires lines != []
    ensures Headers(lines) == (if IsHeader(lines[0]) then [lines[0]] else []) + Headers(lines[1..])
  {
    hide IsHeader;
  }

  lemma {:induction false} HeadersAppend(a: seq<string>, b: seq<string>)
    ensures Headers(a + b) == Headers(a) + Headers(b)
  {
    hide IsHeader;
    if a == [] {
      assert a + b == b;
    } else {
      hide Headers;
      assert (a + b)[0] == a[0] && (a + b)[1..] == a[1..] + b;
      HeadersStep(a + b);
      HeadersStep(a);
      HeadersAppend(a[1..], b);
      Regroup(if IsHeader(a[0]) then [a[0]] else [], Headers(a[1..]), Headers(b));
    }
  }

  lemma MediaHasNoHeaders(pending: Option<string>, uri: string)
    requires pending.Some? ==> KindOf(pending.value).Inf?
    requires KindOf(uri).Foreign?
    ensures Headers(Flush(pending) + [uri]) == []
  {
    hide KindOf;
    assert Headers([uri]) == [];
    HeadersAppend(Flush(pending), [uri]);
  }

  lemma HeadersOfLine(line: string, ceiling: Option<int>, site: Site, carry: Carry)
    requires carry.Buffered()
    ensures Headers(Emit(line, ceiling, site, carry)) == RewrittenAll(Headers([line]), ceiling, site)
  {
    hide KindOf, RewriteUri, SegUrl, KeyUrl, Strip;
    match KindOf(line) {
      case Key => KeyStaysKey(line, KeyUrl(site));
      case PlaylistType => EventLineIsType();
      case Foreign => MediaHasNoHeaders(carry.pending, line);
      case Segment(_) =>
        SegUrlIsForeign(site, Strip(line));
        MediaHasNoHeaders(carry.pending, SegUrl(site, Strip(line)));
      case _ =>
    }
  }

  lemma {:induction false} HeadersOfRendered(lines: seq<string>, ceiling: Option<int>, site: Site, carry: Carry)
    requires carry.Buffered()
    ensures Headers(RenderFrom(lines, ceiling, site, carry)) == RewrittenAll(Headers(lines), ceiling, site)
    decreases |lines|
  {
    hide KindOf, Emit, IsHeader, Rewritten;
    if lines != [] {
      var next := Next(lines[0], ceiling, carry);
      StaysBuffered(lines[0], ceiling, carry);
      HeadersOfLine(lines[0], ceiling, site, carry);
      HeadersOfRendered(lines[1..], ceiling, site, next);
      HeadersAppend(Emit(lines[0], ceiling, site, carry), RenderFrom(lines[1..], ceiling, site, next));
      HeadersAppend([lines[0]], lines[1..]);
      assert lines == [lines[0]] + lines[1..];
      RewrittenAppend(Headers([lines[0]]), Headers(lines[1..]), ceiling, site);
    }
  }

  lemma RewrittenAppend(a: seq<string>, b: seq<string>, ceiling: Option<int>, site: Site)
    ensures RewrittenAll(a + b, ceiling, site) == RewrittenAll(a, ceiling, site) + RewrittenAll(b, ceiling, site)
  {
    hide Rewritten;
  }

  lemma StaysBuffered(line: string, ceiling: Option<int>, carry: Carry)
    requires carry.Buffered()
    ensures Next(line, ceiling, carry).Buffered()
  {
  }

  /** The texts the renderer writes itself: EVENT for the playlist type of a sliding
      playlist, and the key endpoint for the URI of a key line. */
  lemma HeaderTexts(lines: seq<string>, ceiling: Option<int>, site: Site, i: nat)
    requires i < |Headers(lines)|
    ensures |Headers(Rendered(lines, ceiling, site))| == |Headers(lines)|
    ensures var before, after := Headers(lines)[i], Headers(Rendered(lines, ceiling, site))[i];
            match KindOf(before)
            case PlaylistType => after == if ceiling.Some? then "#EXT-X-PLAYLIST-TYPE:EVENT" else before
            case Key => after == RewriteUri(before, site.base + "/key?t=" + site.token)
            case _ => after == before
  {
    hide KindOf, RewriteUri, Rendered, Headers;
    HeadersKept(lines, ceiling, site);
  }

  /** Header tags come through in order: EXT-X-KEY with its URI replaced, the
      playlist type downgraded to EVENT when sliding, everything else verbatim. */
  lemma HeadersKept(lines: seq<string>, ceiling: Option<int>, site: Site)
    ensures Headers(Rendered(lines, ceiling, site)) == RewrittenAll(Headers(lines), ceiling, site)
  {
    HeadersOfRendered(lines, ceiling, site, START);
  }

  // ---------- ENDLIST ----------

  ghost predicate Truncates(lines: seq<string>, ceiling: Option<int>) {
    exists i :: 0 <= i < |Entries(lines)| && !Shown(Entries(lines)[i], ceiling)
  }

  function After(lines: seq<string>, ceiling: Option<int>, carry: Carry): Carry {
    if lines == [] then carry else After(lines[1..], ceiling, Next(lines[0], ceiling, carry))
  }

  predicate Dropped(es: seq<Entry>, ceiling: Option<int>) {
    es != [] && (!Shown(es[0], ceiling) || Dropped(es[1..], ceiling))
  }

  lemma {:induction false} DroppedMeansTruncated(es: seq<Entry>, ceiling: Option<int>)
    ensures Dropped(es, ceiling) <==> exists i :: 0 <= i < |es| && !Shown(es[i], ceiling)
  {
    if es != [] {
      DroppedMeansTruncated(es[1..], ceiling);
      if i :| 0 <= i < |es| && !Shown(es[i], ceiling) {
        assert i > 0 ==> es[1..][i - 1] == es[i];
      }
    }
  }

  /** Rendering a playlist in two parts: the second part sees what the first carried over. */
  lemma {:induction false} RenderSplits(a: seq<string>, b: seq<string>, ceiling: Option<int>, site: Site, carry: Carry)
    ensures RenderFrom(a + b, ceiling, site, carry)
         == RenderFrom(a, ceiling, site, carry) + RenderFrom(b, ceiling, site, After(a, ceiling, carry))
    decreases |a|
  {
    if a == [] {
      assert a + b == b;
    } else {
      assert (a + b)[1..] == a[1..] + b;
      RenderSplits(a[1..], b, ceiling, site, Next(a[0], ceiling, carry));
    }
  }

  lemma LineCarries(line: string, ceiling: Option<int>, carry: Carry)
    ensures var next := Next(line, ceiling, carry);
            && next.pending == PendingNext(line, carry.pending)
            && (next.truncated <==> carry.truncated || Dropped(EntryOf(line, carry.pending), ceiling))
  {
    hide KindOf, Strip;
  }

  lemma DroppedAppend(a: seq<Entry>, b: seq<Entry>, ceiling: Option<int>)
    requires |a| <= 1
    ensures Dropped(a + b, ceiling) <==> Dropped(a, ceiling) || Dropped(b, ceiling)
  {
    hide Shown;
    if a == [] {
      assert a + b == b;
    } else {
      assert (a + b)[1..] == b && a[1..] == [];
    }
  }

  lemma {:induction false} CarriesTruncation(lines: seq<string>, ceiling: Option<int>, carry: Carry)
    ensures After(lines, ceiling, carry).truncated
        <==> carry.truncated || Dropped(EntriesFrom(lines, carry.pending), ceiling)
    decreases |lines|
  {
    hide Next, PendingNext, EntryOf, Dropped;
    if lines == [] {
      NothingDropped(ceiling);
    } else {
      var next := Next(lines[0], ceiling, carry);
      LineCarries(lines[0], ceiling, carry);
      CarriesTruncation(lines[1..], ceiling, next);
      DroppedAppend(EntryOf(lines[0], carry.pending), EntriesFrom(lines[1..], next.pending), ceiling);
    }
  }

  lemma NothingDropped(ceiling: Option<int>)
    ensures !Dropped([], ceiling)
  {
  }

  /** A closing ENDLIST survives exactly when nothing above it was hidden
      (section 4.3.3.4 of RFC 8216); otherwise the player keeps polling. */
  lemma EndListSurvivesIffWhole(body: seq<string>, end: string, ceiling: Option<int>, site: Site)
    requires KindOf(end).EndList?
    ensures Rendered(body + [end], ceiling, site)
         == Rendered(body, ceiling, site) + if Truncates(body, ceiling) then [] else [end]
  {
    RenderSplits(body, [end], ceiling, site, START);
    CarriesTruncation(body, ceiling, START);
    DroppedMeansTruncated(Entries(body), ceiling);
  }

  // ---------- Append-only lists of segments ----------

  /** A segment's index, or -1 for a media line that is never hidden. */
  function Rank(e: Entry): int { if e.index.Some? then e.index.value else -1 }

  ghost predicate Ascending(es: seq<Entry>) {
    forall i, j :: 0 <= i < j < |es| ==> Rank(es[i]) <= Rank(es[j])
  }

  lemma {:induction false} AllVisible(es: seq<Entry>, ceiling: int)
    requires ceiling >= -1 && forall i :: 0 <= i < |es| ==> Rank(es[i]) <= ceiling
    ensures Visible(es, Some(ceiling)) == es
  {
    if es != [] {
      AllVisible(es[1..], ceiling);
    }
  }

  lemma {:induction false} NoneVisible(es: seq<Entry>, ceiling: int)
    requires ceiling >= -1 && forall i :: 0 <= i < |es| ==> Rank(es[i]) > ceiling
    ensures Visible(es, Some(ceiling)) == []
  {
    if es != [] {
      NoneVisible(es[1..], ceiling);
    }
  }

  lemma VisibleStep(es: seq<Entry>, ceiling: Option<int>)
    requires es != []
    ensures Visible(es, ceiling) == (if Shown(es[0], ceiling) then [es[0]] else []) + Visible(es[1..], ceiling)
  {
    hide Shown;
  }

  lemma {:induction false} VisibleAppend(a: seq<Entry>, b: seq<Entry>, ceiling: Option<int>)
    ensures Visible(a + b, ceiling) == Visible(a, ceiling) + Visible(b, ceiling)
  {
    hide Shown;
    if a == [] {
      assert a + b == b;
    } else {
      hide Visible;
      assert (a + b)[0] == a[0] && (a + b)[1..] == a[1..] + b;
      VisibleStep(a + b, ceiling);
      VisibleStep(a, ceiling);
      VisibleAppend(a[1..], b, ceiling);
      Regroup(if Shown(a[0], ceiling) then [a[0]] else [], Visible(a[1..], ceiling), Visible(b, ceiling));
    }
  }

  /** How many leading entries of an ascending source fall inside the window. */
  function Cut(es: seq<Entry>, ceiling: int): (n: nat)
    ensures n <= |es|
    ensures forall i :: 0 <= i < n ==> Rank(es[i]) <= ceiling
    ensures n < |es| ==> Rank(es[n]) > ceiling
  {
    if es == [] || Rank(es[0]) > ceiling then 0 else 1 + Cut(es[1..], ceiling)
  }

  lemma VisibleIsPrefix(es: seq<Entry>, ceiling: int)
    requires Ascending(es) && ceiling >= -1
    ensures Visible(es, Some(ceiling)) == es[..Cut(es, ceiling)]
  {
    hide Visible, Rank;
    var n := Cut(es, ceiling);
    AllVisible(es[..n], ceiling);
    forall i | 0 <= i < |es[n..]| ensures Rank(es[n..][i]) > ceiling {
      assert es[n..][i] == es[n + i];
    }
    NoneVisible(es[n..], ceiling);
    VisibleAppend(es[..n], es[n..], Some(ceiling));
    assert es == es[..n] + es[n..];
  }

  lemma ServedPrefix(site: Site, es: seq<Entry>, m: nat, n: nat)
    requires m <= n <= |es|
    ensures Served(site, es[..m]) <= Served(site, es[..n])
  {
  }

  /** Two windows onto one source: the lower (EXTINF, URI) list is a prefix of the higher one. */
  ghost predicate Grows(lines: seq<string>, site: Site, low: int, high: int) {
    Listing(Rendered(lines, Some(low), site)) <= Listing(Rendered(lines, Some(high), site))
  }

  lemma AscendingGrows(lines: seq<string>, site: Site, low: int, high: int)
    requires Ascending(Entries(lines)) && -1 <= low <= high
    ensures Grows(lines, site, low, high)
  {
    var es := Entries(lines);
    PlayerSeesWindow(lines, Some(low), site);
    PlayerSeesWindow(lines, Some(high), site);
    VisibleIsPrefix(es, low);
    VisibleIsPrefix(es, high);
    ServedPrefix(site, es, Cut(es, low), Cut(es, high));
  }

  /** Distinct media lines are served under distinct (EXTINF, URI) pairs. */
  ghost predicate Distinct(site: Site, es: seq<Entry>) {
    forall i, j :: 0 <= i < j < |es| ==> Served(site, es)[i] != Served(site, es)[j]
  }

  lemma {:induction false} VisibleFrom(es: seq<Entry>, ceiling: Option<int>, k: nat) returns (m: nat)
    requires k < |Visible(es, ceiling)|
    ensures m < |es| && es[m] == Visible(es, ceiling)[k]
  {
    if Shown(es[0], ceiling) && k == 0 {
      m := 0;
    } else {
      var j := VisibleFrom(es[1..], ceiling, if Shown(es[0], ceiling) then k - 1 else k);
      m := j + 1;
    }
  }

  /** Conversely, an inversion in the source makes some rise of the window insert a segment
      above one already served. */
  lemma InversionBreaks(lines: seq<string>, site: Site, i: nat, j: nat)
    requires i < j < |Entries(lines)| && Rank(Entries(lines)[i]) > Rank(Entries(lines)[j])
    requires Distinct(site, Entries(lines))
    ensures var high := Rank(Entries(lines)[i]); high >= 0 && !Grows(lines, site, high - 1, high)
  {
    var es := Entries(lines);
    var high := Rank(es[i]);
    var low := high - 1;
    PlayerSeesWindow(lines, Some(low), site);
    PlayerSeesWindow(lines, Some(high), site);
    var r := |Visible(es[..j], Some(low))|;
    VisibleAt(es, low, j);
    MoreVisible(es[..j], low, i);
    var m := VisibleBefore(es, high, j, r);
    assert Served(site, es)[m] != Served(site, es)[j];
    assert Served(site, Visible(es, Some(high)))[r] == Served(site, es)[m];
    assert Served(site, Visible(es, Some(low)))[r] == Served(site, es)[j];
  }

  /** A shown line above the j-th shown one comes from above it in the source. */
  lemma VisibleBefore(es: seq<Entry>, ceiling: int, j: nat, r: nat) returns (m: nat)
    requires j < |es| && r < |Visible(es[..j], Some(ceiling))|
    ensures m < j && r < |Visible(es, Some(ceiling))| && Visible(es, Some(ceiling))[r] == es[m]
  {
    VisibleAppend(es[..j], es[j..], Some(ceiling));
    assert es == es[..j] + es[j..];
    m := VisibleFrom(es[..j], Some(ceiling), r);
  }

  /** The j-th entry, when shown, follows exactly the shown entries before it. */
  lemma VisibleAt(es: seq<Entry>, ceiling: int, j: nat)
    requires j < |es| && -1 <= Rank(es[j]) <= ceiling
    ensures |Visible(es[..j], Some(ceiling))| < |Visible(es, Some(ceiling))|
    ensures Visible(es, Some(ceiling))[|Visible(es[..j], Some(ceiling))|] == es[j]
  {
    VisibleAppend(es[..j], es[j..], Some(ceiling));
    assert es == es[..j] + es[j..];
    assert es[j..][0] == es[j];
  }

  lemma {:induction false} MoreVisible(es: seq<Entry>, low: int, i: nat)
    requires i < |es| && Rank(es[i]) == low + 1 && low >= -1
    ensures |Visible(es, Some(low))| < |Visible(es, Some(low + 1))|
  {
    if i == 0 {
      NoFewer(es[1..], low);
    } else {
      MoreVisible(es[1..], low, i - 1);
    }
  }

  lemma {:induction false} NoFewer(es: seq<Entry>, low: int)
    ensures |Visible(es, Some(low))| <= |Visible(es, Some(low + 1))|
  {
    if es != [] {
      NoFewer(es[1..], low);
    }
  }

  /** The exact condition for the (EXTINF, URI) list: with distinct media lines, every later
      window extends every earlier one if and only if the source lists segments in index order. */
  lemma AppendOnlyIffAscending(lines: seq<string>, site: Site)
    requires Distinct(site, Entries(lines))
    ensures (forall low, high :: -1 <= low <= high ==> Grows(lines, site, low, high)) <==> Ascending(Entries(lines))
  {
    if Ascending(Entries(lines)) {
      forall low, high | -1 <= low <= high ensures Grows(lines, site, low, high) {
        AscendingGrows(lines, site, low, high);
      }
    } else {
      var i, j :| 0 <= i < j < |Entries(lines)| && Rank(Entries(lines)[i]) > Rank(Entries(lines)[j]);
      InversionBreaks(lines, site, i, j);
    }
  }

  // ---------- Append-only files ----------

  /** The served files themselves, tag lines included: the lower is a prefix of the higher. */
  ghost predicate FileGrows(lines: seq<string>, site: Site, low: int, high: int) {
    Rendered(lines, Some(low), site) <= Rendered(lines, Some(high), site)
  }

  /** No media line below a segment that windows from `floor` on may hide has a lower index. */
  ghost predicate OrderedAbove(es: seq<Entry>, floor: int) {
    forall i, j :: 0 <= i < j < |es| && Rank(es[i]) > floor ==> Rank(es[i]) <= Rank(es[j])
  }

  /** No tag line stands below such a segment. */
  ghost predicate TagsAbove(lines: seq<string>, floor: int) {
    forall i, j :: 0 <= i < j < |lines| && KindOf(lines[i]).Segment? && KindOf(lines[i]).index > floor ==>
      !IsHeader(lines[j])
  }

  /** Below the first hidden segment nothing but tag lines is emitted. */
  lemma {:induction false} OnlyHeadersBelow(lines: seq<string>, low: int, site: Site, carry: Carry)
    requires low >= -1 && carry.truncated
    requires forall e :: e in EntriesFrom(lines, carry.pending) ==> Rank(e) > low
    ensures RenderFrom(lines, Some(low), site, carry) == RewrittenAll(Headers(lines), Some(low), site)
    decreases |lines|
  {
    hide KindOf, Emit, Next, IsHeader, Rewritten, EntryOf, PendingNext;
    if lines != [] {
      var next := Next(lines[0], Some(low), carry);
      BelowLine(lines[0], low, site, carry);
      assert forall e :: e in EntriesFrom(lines[1..], next.pending) ==> e in EntriesFrom(lines, carry.pending);
      assert forall e :: e in EntryOf(lines[0], carry.pending) ==> e in EntriesFrom(lines, carry.pending);
      OnlyHeadersBelow(lines[1..], low, site, next);
      assert lines == [lines[0]] + lines[1..];
      HeadersAppend([lines[0]], lines[1..]);
      RewrittenAppend(Headers([lines[0]]), Headers(lines[1..]), Some(low), site);
    }
  }

  lemma BelowLine(line: string, low: int, site: Site, carry: Carry)
    requires low >= -1 && carry.truncated
    ensures var next := Next(line, Some(low), carry);
            && next.truncated && next.pending == PendingNext(line, carry.pending)
    ensures (forall e :: e in EntryOf(line, carry.pending) ==> Rank(e) > low) ==>
              Emit(line, Some(low), site, carry) == RewrittenAll(Headers([line]), Some(low), site)
  {
    hide RewriteUri, Strip, NameIndex;
    assert EntryOf(line, carry.pending) != [] ==> EntryOf(line, carry.pending)[0] in EntryOf(line, carry.pending);
  }

  /** A line that the lower window does not hide looks the same through both. */
  lemma SameLine(line: string, low: int, high: int, site: Site, carry: Carry)
    requires low <= high && !carry.truncated
    requires KindOf(line).Segment? ==> !Hides(Some(low), KindOf(line).index)
    ensures Emit(line, Some(low), site, carry) == Emit(line, Some(high), site, carry)
    ensures Next(line, Some(low), carry) == Next(line, Some(high), carry)
    ensures !Next(line, Some(low), carry).truncated
    ensures Next(line, Some(low), carry).pending == PendingNext(line, carry.pending)
  {
    hide KindOf, RewriteUri;
  }

  lemma {:induction false} OrderedFileGrows(lines: seq<string>, site: Site, floor: int, low: int, high: int,
      carry: Carry)
    requires -1 <= floor <= low <= high && !carry.truncated
    requires OrderedAbove(EntriesFrom(lines, carry.pending), floor) && TagsAbove(lines, floor)
    ensures RenderFrom(lines, Some(low), site, carry) <= RenderFrom(lines, Some(high), site, carry)
    decreases |lines|
  {
    hide KindOf, Emit, Next, IsHeader, Rewritten;
    if lines != [] {
      var line, rest := lines[0], lines[1..];
      EntriesSplit(lines, carry.pending);
      TagsTail(lines, floor);
      if KindOf(line).Segment? && Hides(Some(low), KindOf(line).index) {
        HiddenFirst(lines, low, site, carry);
        RestIsHidden(lines, floor, low, carry.pending);
        NoHeadersBelow(lines, floor);
        OnlyHeadersBelow(rest, low, site, Carry(None, true));
      } else {
        SameLine(line, low, high, site, carry);
        OrderedFileGrows(rest, site, floor, low, high, Next(line, Some(low), carry));
      }
    }
  }

  lemma EntriesSplit(lines: seq<string>, pending: Option<string>)
    requires lines != []
    ensures EntriesFrom(lines, pending) ==
        EntryOf(lines[0], pending) + EntriesFrom(lines[1..], PendingNext(lines[0], pending))
    ensures forall floor :: OrderedAbove(EntriesFrom(lines, pending), floor) ==>
              OrderedAbove(EntriesFrom(lines[1..], PendingNext(lines[0], pending)), floor)
  {
    hide EntryOf, PendingNext, OrderedAbove;
    var a, b := EntryOf(lines[0], pending), EntriesFrom(lines[1..], PendingNext(lines[0], pending));
    forall floor | OrderedAbove(a + b, floor) ensures OrderedAbove(b, floor) {
      OrderedSuffix(a, b, floor);
    }
  }

  lemma OrderedSuffix(a: seq<Entry>, b: seq<Entry>, floor: int)
    requires OrderedAbove(a + b, floor)
    ensures OrderedAbove(b, floor)
  {
    hide Rank;
    assert forall k :: 0 <= k < |b| ==> b[k] == (a + b)[|a| + k];
  }

  lemma TagsTail(lines: seq<string>, floor: int)
    requires lines != [] && TagsAbove(lines, floor)
    ensures TagsAbove(lines[1..], floor)
  {
    hide KindOf, IsHeader;
  }

  lemma HiddenFirst(lines: seq<string>, low: int, site: Site, carry: Carry)
    requires lines != [] && KindOf(lines[0]).Segment? && Hides(Some(low), KindOf(lines[0]).index)
    ensures RenderFrom(lines, Some(low), site, carry) == RenderFrom(lines[1..], Some(low), site, Carry(None, true))
    ensures PendingNext(lines[0], carry.pending) == None
  {
    hide KindOf;
  }

  lemma RestIsHidden(lines: seq<string>, floor: int, low: int, pending: Option<string>)
    requires lines != [] && floor <= low && KindOf(lines[0]).Segment? && KindOf(lines[0]).index > low
    requires OrderedAbove(EntriesFrom(lines, pending), floor)
    ensures forall e :: e in EntriesFrom(lines[1..], None) ==> Rank(e) >= KindOf(lines[0]).index
  {
    hide KindOf;
    var es, rest := EntriesFrom(lines, pending), EntriesFrom(lines[1..], None);
    assert es == EntryOf(lines[0], pending) + rest;
    forall e | e in rest ensures Rank(e) >= KindOf(lines[0]).index {
      var k :| 0 <= k < |rest| && rest[k] == e;
      assert es[k + 1] == e && Rank(es[0]) == KindOf(lines[0]).index;
    }
  }

  lemma NoHeadersBelow(lines: seq<string>, floor: int)
    requires lines != [] && TagsAbove(lines, floor) && KindOf(lines[0]).Segment? && KindOf(lines[0]).index > floor
    ensures Headers(lines[1..]) == []
  {
    hide KindOf, IsHeader;
    assert forall j :: 0 <= j < |lines[1..]| ==> lines[1..][j] == lines[j + 1];
    AllPlain(lines[1..]);
  }

  lemma {:induction false} AllPlain(lines: seq<string>)
    ensures (forall j :: 0 <= j < |lines| ==> !IsHeader(lines[j])) <==> Headers(lines) == []
  {
    hide IsHeader;
    if lines != [] {
      AllPlain(lines[1..]);
      assert forall j :: 0 < j < |lines| ==> lines[j] == lines[1..][j - 1];
      assert forall j :: 0 <= j < |lines[1..]| ==> lines[1..][j] == lines[j + 1];
    }
  }

  /** A tag line below a segment that one window hides and the next shows. */
  lemma {:induction false} TagBelowBreaks(lines: seq<string>, site: Site, floor: int, i: nat, j: nat, carry: Carry)
    requires floor >= -1 && !carry.truncated && carry.Buffered()
    requires OrderedAbove(EntriesFrom(lines, carry.pending), floor)
    requires i < j < |lines| && KindOf(lines[i]).Segment? && KindOf(lines[i]).index > floor && IsHeader(lines[j])
    ensures var high := KindOf(lines[i]).index;
            !(RenderFrom(lines, Some(high - 1), site, carry) <= RenderFrom(lines, Some(high), site, carry))
    decreases |lines|
  {
    hide KindOf, Emit, Next, IsHeader, Rewritten;
    var line, rest := lines[0], lines[1..];
    var high: int := KindOf(lines[i]).index;
    var low := high - 1;
    EntriesSplit(lines, carry.pending);
    if KindOf(line).Segment? && Hides(Some(low), KindOf(line).index) {
      if i > 0 {
        SegmentIsEntry(rest, i - 1, PendingNext(line, carry.pending));
        HiddenFirst(lines, low, site, carry);
        RestIsHidden(lines, floor, low, carry.pending);
      }
      assert KindOf(line).index == high;
      HiddenFirst(lines, low, site, carry);
      RestIsHidden(lines, floor, low, carry.pending);
      OnlyHeadersBelow(rest, low, site, Carry(None, true));
      assert IsHeader(rest[j - 1]);
      AllPlain(rest);
      HeaderFirst(rest, low, site);
      ShownFirst(line, rest, high, site, carry);
    } else {
      assert i > 0 && lines[i] == rest[i - 1] && lines[j] == rest[j - 1];
      SameLine(line, low, high, site, carry);
      StaysBuffered(line, Some(low), carry);
      TagBelowBreaks(rest, site, floor, i - 1, j - 1, Next(line, Some(low), carry));
      SamePrefix(Emit(line, Some(low), site, carry), RenderFrom(rest, Some(low), site, Next(line, Some(low), carry)),
                 RenderFrom(rest, Some(high), site, Next(line, Some(low), carry)));
    }
  }

  lemma SamePrefix<T>(a: seq<T>, b: seq<T>, c: seq<T>)
    ensures a + b <= a + c ==> b <= c
  {
    if a + b <= a + c {
      assert forall k :: 0 <= k < |b| ==> b[k] == (a + b)[|a| + k] == (a + c)[|a| + k] == c[k];
    }
  }

  lemma {:induction false} SegmentIsEntry(lines: seq<string>, i: nat, pending: Option<string>)
    requires i < |lines| && KindOf(lines[i]).Segment?
    ensures exists e :: e in EntriesFrom(lines, pending) && Rank(e) == KindOf(lines[i]).index
    decreases |lines|
  {
    hide KindOf;
    EntriesSplit(lines, pending);
    if i == 0 {
      var e := EntryOf(lines[0], pending)[0];
      assert e in EntriesFrom(lines, pending) && Rank(e) == KindOf(lines[0]).index;
    } else {
      SegmentIsEntry(lines[1..], i - 1, PendingNext(lines[0], pending));
      var e :| e in EntriesFrom(lines[1..], PendingNext(lines[0], pending)) && Rank(e) == KindOf(lines[i]).index;
      assert e in EntriesFrom(lines, pending);
    }
  }

  /** What is emitted for a header line is a header line. */
  lemma HeaderFirst(lines: seq<string>, low: int, site: Site)
    requires Headers(lines) != []
    ensures var out := RewrittenAll(Headers(lines), Some(low), site); out != [] && IsHeader(out[0])
  {
    HeadAreHeaders(lines);
    RewrittenIsHeader(Headers(lines)[0], low, site);
  }

  lemma {:induction false} HeadAreHeaders(lines: seq<string>)
    ensures Headers(lines) != [] ==> IsHeader(Headers(lines)[0])
  {
    hide IsHeader;
    if lines != [] {
      HeadAreHeaders(lines[1..]);
    }
  }

  lemma RewrittenIsHeader(line: string, low: int, site: Site)
    requires IsHeader(line)
    ensures IsHeader(Rewritten(line, Some(low), site))
  {
    hide KindOf, RewriteUri;
    EventLineIsType();
    if KindOf(line).Key? {
      KeyStaysKey(line, KeyUrl(site));
    }
  }

  /** A shown segment is emitted as media, with its EXTINF first. */
  lemma ShownFirst(line: string, rest: seq<string>, high: int, site: Site, carry: Carry)
    requires carry.Buffered() && KindOf(line).Segment? && KindOf(line).index <= high
    ensures var out := RenderFrom([line] + rest, Some(high), site, carry); out != [] && !IsHeader(out[0])
    ensures [line] + rest != [] && ([line] + rest)[1..] == rest
  {
    hide KindOf;
    SegUrlIsForeign(site, Strip(line));
    assert ([line] + rest)[1..] == rest;
  }

  /** The exact condition for the served file, tag lines included, over the windows from
      `floor` on: no media line of a lower index and no tag line below a segment that may
      be hidden. */
  lemma FileAppendOnlyIff(lines: seq<string>, site: Site, floor: int)
    requires floor >= -1 && Distinct(site, Entries(lines))
    ensures (forall low, high :: floor <= low <= high ==> FileGrows(lines, site, low, high))
       <==> OrderedAbove(Entries(lines), floor) && TagsAbove(lines, floor)
  {
    hide KindOf, IsHeader, Rendered, Distinct, Listing;
    if OrderedAbove(Entries(lines), floor) && TagsAbove(lines, floor) {
      forall low, high | floor <= low <= high ensures FileGrows(lines, site, low, high) {
        FileGrowsAbove(lines, site, floor, low, high);
      }
    } else if OrderedAbove(Entries(lines), floor) {
      var i, j :| 0 <= i < j < |lines| && KindOf(lines[i]).Segment? && KindOf(lines[i]).index > floor &&
          IsHeader(lines[j]);
      var high: int := KindOf(lines[i]).index;
      TagBelow(lines, site, floor, i, j);
      assert !FileGrows(lines, site, high - 1, high);
    } else {
      var i, j :| 0 <= i < j < |Entries(lines)| && Rank(Entries(lines)[i]) > floor
                  && Rank(Entries(lines)[i]) > Rank(Entries(lines)[j]);
      var high := Rank(Entries(lines)[i]);
      InversionBreaks(lines, site, i, j);
      FileGrowthIsListed(lines, site, high - 1, high);
      assert !FileGrows(lines, site, high - 1, high);
    }
  }

  lemma FileGrowsAbove(lines: seq<string>, site: Site, floor: int, low: int, high: int)
    requires -1 <= floor <= low <= high && OrderedAbove(Entries(lines), floor) && TagsAbove(lines, floor)
    ensures FileGrows(lines, site, low, high)
  {
    OrderedFileGrows(lines, site, floor, low, high, START);
  }

  lemma TagBelow(lines: seq<string>, site: Site, floor: int, i: nat, j: nat)
    requires floor >= -1 && OrderedAbove(Entries(lines), floor)
    requires i < j < |lines| && KindOf(lines[i]).Segment? && KindOf(lines[i]).index > floor && IsHeader(lines[j])
    ensures !FileGrows(lines, site, KindOf(lines[i]).index - 1, KindOf(lines[i]).index)
  {
    TagBelowBreaks(lines, site, floor, i, j, START);
  }

  /** A growing file has a growing (EXTINF, URI) list. */
  lemma FileGrowthIsListed(lines: seq<string>, site: Site, low: int, high: int)
    ensures FileGrows(lines, site, low, high) ==> Grows(lines, site, low, high)
  {
    if FileGrows(lines, site, low, high) {
      var a, b := Rendered(lines, Some(low), site), Rendered(lines, Some(high), site);
      ListingOfPrefix(a, b, None);
    }
  }

  lemma {:induction false} ListingOfPrefix(a: seq<string>, b: seq<string>, above: Option<string>)
    requires a <= b
    ensures ListingFrom(a, above) <= ListingFrom(b, above)
    decreases |a|
  {
    hide KindOf;
    if a != [] {
      assert a[0] == b[0] && a[1..] <= b[1..];
      ListingOfPrefix(a[1..], b[1..], None);
      ListingOfPrefix(a[1..], b[1..], Some(a[0]));
    }
  }

  /** A tag line between segments breaks the file although the segments are in order. */
  lemma TagBetweenSegmentsBreaks(first: string, second: string, tag: string, site: Site)
    requires KindOf(first) == Segment(0) && KindOf(second) == Segment(1) && KindOf(tag) == Tag
    ensures Ascending(Entries([first, second, tag])) && Grows([first, second, tag], site, 0, 1)
    ensures !FileGrows([first, second, tag], site, 0, 1)
  {
    hide KindOf, Rendered, Listing;
    var lines := [first, second, tag];
    assert lines[1..] == [second, tag] && [second, tag][1..] == [tag] && [tag][1..] == [];
    assert EntriesFrom([tag], None) == [];
    assert EntriesFrom([second, tag], None) == EntryOf(second, None);
    assert Entries(lines) == EntryOf(first, None) + EntryOf(second, None);
    AscendingGrows(lines, site, 0, 1);
    assert lines[1] == second && lines[2] == tag;
    TagBelow(lines, site, 0, 1, 2);
  }

  /** EVENT playlists may only be appended to (sections 4.3.3.5 and 6.2.1 of RFC
      8216): over any run of the gate, the (EXTINF, URI) list served before the run is a
      prefix of the one served after it, with tags above the segments the whole file is,
      and no listed segment is refused as a skip. */
  lemma PlaylistsOnlyGrow(c: P.Settings, lesson: P.Lesson, p: P.Progress, run: seq<P.Fetch>,
                          lines: seq<string>, site: Site)
    requires Ascending(Entries(lines)) && p.watermark >= -1
    ensures var q := P.Run(c, lesson, p, run);
            && Grows(lines, site, P.VisibleCeiling(c, p.watermark), P.VisibleCeiling(c, q.watermark))
            && (TagsAbove(lines, -1) ==>
                  FileGrows(lines, site, P.VisibleCeiling(c, p.watermark), P.VisibleCeiling(c, q.watermark)))
            && forall e :: e in Visible(Entries(lines), Some(P.VisibleCeiling(c, p.watermark))) && e.index.Some?
                 ==> !P.Skips(c, q, e.index.value)
  {
    P.WatermarkRises(c, lesson, p, run);
    AscendingGrows(lines, site, P.VisibleCeiling(c, p.watermark), P.VisibleCeiling(c, P.Run(c, lesson, p,
        run).watermark));
    var es, ceiling := Entries(lines), P.VisibleCeiling(c, p.watermark);
    if TagsAbove(lines, -1) {
      FileGrowsAbove(lines, site, -1, ceiling, P.VisibleCeiling(c, P.Run(c, lesson, p, run).watermark));
    }
    VisibleIsPrefix(es, ceiling);
    forall e | e in Visible(es, Some(ceiling)) && e.index.Some?
      ensures !P.Skips(c, P.Run(c, lesson, p, run), e.index.value)
    {
      P.ListedNeverSkips(c, lesson, p, run, e.index.value);
    }
  }
}
