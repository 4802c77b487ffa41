/** The packager's duration parser, and the single timeline it shares with the
    served manifest and the playback gate. */
module Timeline {
  import opened Prelude
  import opened HlsText
  import opened Manifest
  import P = Playback

  // ---------- Parsing ----------

  /** The (segment index, duration) pair completed by a line, given the pending duration. */
  function PairOf(line: string, pending: Option<real>): (ps: seq<(nat, real)>)
    ensures |ps| <= 1
  {
    var t := Strip(line);
    if Duration(t).None? && NameIndex(t, 1, None).Some? && pending.Some? then
      [(NameIndex(t, 1, None).value, pending.value)]
    else []
  }

  function HeldNext(line: string, pending: Option<real>): Option<real> {
    var t := Strip(line);
    if Duration(t).Some? then Duration(t)
    else if NameIndex(t, 1, None).Some? then None
    else pending
  }

  /** The (segment index, duration) pairs of a playlist in order of appearance. */
  function PairsFrom(lines: seq<string>, pending: Option<real>): seq<(nat, real)> {
    if lines == [] then [] else PairOf(lines[0], pending) + PairsFrom(lines[1..], HeldNext(lines[0], pending))
  }

  lemma PairsCons(line: string, rest: seq<string>, pending: Option<real>)
    ensures PairsFrom([line] + rest, pending) == PairOf(line, pending) + PairsFrom(rest, HeldNext(line, pending))
  {
    assert ([line] + rest)[1..] == rest;
  }

  function Pairs(lines: seq<string>): seq<(nat, real)> { PairsFrom(lines, None) }

  /** The duration recorded last for a segment index. */
  function LastFor(pairs: seq<(nat, real)>, i: nat): Option<real> {
    if pairs == [] then None
    else if pairs[|pairs| - 1].0 == i then Some(pairs[|pairs| - 1].1)
    else LastFor(pairs[..|pairs| - 1], i)
  }

  /** One past the highest segment index, 0 when nothing parsed. */
  function Extent(pairs: seq<(nat, real)>): nat {
    if pairs == [] then 0 else Max(Extent(pairs[..|pairs| - 1]), pairs[|pairs| - 1].0 + 1)
  }

  function DurationAt(pairs: seq<(nat, real)>, i: nat, nominal: nat): real {
    if LastFor(pairs, i).Some? then LastFor(pairs, i).value else nominal as real
  }

  /** Positionally aligned durations: unnamed indices below the highest take the nominal length. */
  function Durations(lines: seq<string>, nominal: nat): (ds: seq<real>)
    ensures |ds| == Extent(Pairs(lines))
    ensures forall i :: 0 <= i < |ds| ==> ds[i] == DurationAt(Pairs(lines), i, nominal)
  {
    seq(Extent(Pairs(lines)), i requires 0 <= i => DurationAt(Pairs(lines), i, nominal))
  }

  /** by_index holds exactly the last duration of every index seen so far. */
  ghost predicate Indexes(byIndex: map<nat, real>, pairs: seq<(nat, real)>) {
    forall i: nat :: (i in byIndex <==> LastFor(pairs, i).Some?) && (i in byIndex ==>
        byIndex[i] == LastFor(pairs, i).value)
  }

  lemma {:induction false} ExtentIsHighest(pairs: seq<(nat, real)>)
    ensures forall i: nat :: LastFor(pairs, i).Some? ==> i < Extent(pairs)
    ensures Extent(pairs) > 0 <==> pairs != []
    ensures Extent(pairs) > 0 ==> LastFor(pairs, Extent(pairs) - 1).Some?
  {
    if pairs != [] {
      ExtentIsHighest(pairs[..|pairs| - 1]);
    }
  }

  /** The parsed list reaches up to the highest index named; each place holds the last duration
      given for it, or the nominal length if none was. */
  lemma DurationsIff(lines: seq<string>, nominal: nat)
    ensures var ps, ds := Pairs(lines), Durations(lines, nominal);
            && (forall k :: 0 <= k < |ps| ==> ps[k].0 < |ds|)
            && (ds != [] ==> exists k :: 0 <= k < |ps| && ps[k].0 == |ds| - 1)
            && (forall k :: 0 <= k < |ps| && LastNamed(ps, k) ==> ds[ps[k].0] == ps[k].1)
            && forall i :: 0 <= i < |ds| && (forall k :: 0 <= k < |ps| ==> ps[k].0 != i) ==> ds[i] == nominal as real
  {
    hide Pairs;
    var ps := Pairs(lines);
    ExtentIsHighest(ps);
    forall k | 0 <= k < |ps| ensures LastFor(ps, ps[k].0).Some? {
      LastForIs(ps, ps[k].0);
    }
    forall k | 0 <= k < |ps| && LastNamed(ps, k) ensures LastFor(ps, ps[k].0) == Some(ps[k].1) {
      LastForIs(ps, ps[k].0);
    }
    forall i: nat ensures LastFor(ps, i).None? <==> forall k :: 0 <= k < |ps| ==> ps[k].0 != i {
      LastForIs(ps, i);
    }
  }

  /** No later pair names the same index. */
  ghost predicate LastNamed(ps: seq<(nat, real)>, k: int) {
    0 <= k < |ps| && forall j :: k < j < |ps| ==> ps[j].0 != ps[k].0
  }

  lemma {:induction false} LastForIs(ps: seq<(nat, real)>, i: nat)
    ensures LastFor(ps, i).Some? ==>
              exists k :: LastNamed(ps, k) && ps[k].0 == i && LastFor(ps, i).value == ps[k].1
    ensures LastFor(ps, i).None? ==> forall k :: 0 <= k < |ps| ==> ps[k].0 != i
  {
    if ps != [] {
      var n := |ps| - 1;
      if ps[n].0 == i {
        assert LastNamed(ps, n);
      } else {
        LastForIs(ps[..n], i);
        if LastFor(ps[..n], i).Some? {
          var k :| LastNamed(ps[..n], k) && ps[..n][k].0 == i && LastFor(ps[..n], i).value == ps[..n][k].1;
          assert LastNamed(ps, k);
        }
      }
    }
  }

  /** max() over the keys of a non-empty dict. */
  method MaxKey(byIndex: map<nat, real>) returns (top: nat)
    requires byIndex != map[]
    ensures top in byIndex && forall i :: i in byIndex ==> i <= top
  {
    var keys := byIndex.Keys;
    var first :| first in keys;
    top := first;
    while keys != {}
      invariant top in byIndex && keys <= byIndex.Keys
      invariant forall i :: i in byIndex && i !in keys ==> i <= top
      decreases keys
    {
      var i :| i in keys;
      if i > top {
        top := i;
      }
      keys := keys - {i};
    }
  }

  method ParseSegmentDurations(lines: seq<string>, nominal: nat) returns (ds: seq<real>)
    ensures ds == Durations(lines, nominal)
  {
    hide Strip, Duration, NameIndex, PairsFrom, Indexes;
    NoLinesNoPairs();
    NothingIndexed();
    var byIndex: map<nat, real> := map[];
    var pending: Option<real> := None;
    ghost var pairs := [];
    for n := 0 to |lines|
      invariant Pairs(lines) == pairs + PairsFrom(lines[n..], pending)
      invariant Indexes(byIndex, pairs)
    {
      PairsCons(lines[n], lines[n + 1..], pending);
      assert lines[n..] == [lines[n]] + lines[n + 1..];
      ghost var pair := PairOf(lines[n], pending);
      var line := Strip(lines[n]);
      var m := Duration(line);
      if m.Some? {
        pending := m;
      } else {
        var seg := NameIndex(line, 1, None);
        if seg.Some? && pending.Some? {
          IndexesNext(byIndex, pairs, pair[0]);
          assert pair == [(seg.value, pending.value)];
          byIndex := byIndex[seg.value := pending.value];
          pending := None;
        } else {
          assert pairs + pair == pairs;
        }
      }
      assert m.Some? ==> pairs + pair == pairs;
      Regroup(pairs, pair, PairsFrom(lines[n + 1..], pending));
      pairs := pairs + pair;
    }
    assert lines[|lines|..] == [] && pairs == Pairs(lines);
    NothingParsed(byIndex, pairs);
    if byIndex == map[] {
      return [];
    }
    var top := MaxKey(byIndex);
    Aligned(byIndex, pairs, lines, nominal, top);
    ds := seq(top + 1, i requires 0 <= i => if i in byIndex then byIndex[i] else nominal as real);
  }

  lemma NothingParsed(byIndex: map<nat, real>, pairs: seq<(nat, real)>)
    requires Indexes(byIndex, pairs)
    ensures byIndex == map[] ==> Extent(pairs) == 0
  {
    ExtentIsHighest(pairs);
  }

  /** The closing comprehension, over the highest key, aligns the durations. */
  lemma Aligned(byIndex: map<nat, real>, pairs: seq<(nat, real)>, lines: seq<string>, nominal: nat, top: nat)
    requires Indexes(byIndex, pairs) && pairs == Pairs(lines)
    requires top in byIndex && forall i :: i in byIndex ==> i <= top
    ensures Durations(lines, nominal)
         == seq(top + 1, i requires 0 <= i => if i in byIndex then byIndex[i] else nominal as real)
  {
    hide Pairs, LastFor, Extent;
    ExtentIsHighest(pairs);
    assert LastFor(pairs, top).Some?;
    assert Extent(pairs) - 1 in byIndex;
    forall i: nat | i <= top
        ensures DurationAt(pairs, i, nominal) == if i in byIndex then byIndex[i] else nominal as real {
      assert i in byIndex <==> LastFor(pairs, i).Some?;
    }
  }

  lemma NothingIndexed()
    ensures Indexes(map[], [])
  {
  }

  lemma NoLinesNoPairs()
    ensures forall pending :: PairsFrom([], pending) == []
  {
  }

  lemma IndexesNext(byIndex: map<nat, real>, pairs: seq<(nat, real)>, pair: (nat, real))
    requires Indexes(byIndex, pairs)
    ensures Indexes(byIndex[pair.0 := pair.1], pairs + [pair])
  {
    assert (pairs + [pair])[..|pairs|] == pairs;
  }

  // ---------- The renderer and the parser read the same playlist ----------

  /** Every EXTINF line carries a duration the packager's parser accepts. */
  ghost predicate Timed(lines: seq<string>) {
    forall i :: 0 <= i < |lines| && KindOf(lines[i]).Inf? ==> Duration(Strip(lines[i])).Some?
  }

  /** A packaged segment directly owned by some EXTINF line. */
  ghost predicate Packaged(e: Entry) {
    e.index.Some? && e.inf.Some? && Duration(Strip(e.inf.value)).Some?
  }

  ghost predicate AllPackaged(es: seq<Entry>) { forall i :: 0 <= i < |es| ==> Packaged(es[i]) }

  /** Every segment is named by its position. */
  ghost predicate Contiguous(es: seq<Entry>) { forall i :: 0 <= i < |es| ==> es[i].index == Some(i) }

  ghost function SecondsOf(e: Entry): real
    requires Packaged(e)
  {
    Duration(Strip(e.inf.value)).value
  }

  ghost function PairsOf(es: seq<Entry>): seq<(nat, real)>
    requires AllPackaged(es)
  {
    seq(|es|, i requires 0 <= i < |es| => (es[i].index.value, SecondsOf(es[i])))
  }

  ghost function AllSeconds(es: seq<Entry>): seq<real>
    requires AllPackaged(es)
  {
    seq(|es|, i requires 0 <= i < |es| => SecondsOf(es[i]))
  }

  /** The two lexers agree on every line of a packaged playlist. */
  lemma LexersAgree(line: string)
    requires KindOf(line).Inf? ==> Duration(Strip(line)).Some?
    ensures Duration(Strip(line)).Some? <==> KindOf(line).Inf?
    ensures KindOf(line).Segment? ==> NameIndex(Strip(line), 1, None) == Some(KindOf(line).index)
    ensures !KindOf(line).Segment? && !KindOf(line).Foreign? ==> NameIndex(Strip(line), 1, None).None?
  {
    var t := Strip(line);
    assert EXTINF_COLON[..7] == EXTINF;
    if t != [] && t[0] == '#' {
      assert !("seg_" <= t);
    }
  }

  function Held(pending: Option<string>): Option<real> {
    if pending.Some? then Duration(Strip(pending.value)) else None
  }

  lemma LineAgrees(line: string, pending: Option<string>)
    requires KindOf(line).Inf? ==> Duration(Strip(line)).Some?
    requires AllPackaged(EntryOf(line, pending))
    requires pending.Some? ==> Held(pending).Some?
    ensures PairOf(line, Held(pending)) == PairsOf(EntryOf(line, pending))
    ensures HeldNext(line, Held(pending)) == Held(PendingNext(line, pending))
    ensures PendingNext(line, pending).Some? ==> Held(PendingNext(line, pending)).Some?
  {
    LexersAgree(line);
    assert !Packaged(Entry(pending, None, line));
    hide Duration, NameIndex, Strip;
  }

  lemma PackagedParts(a: seq<Entry>, b: seq<Entry>)
    requires AllPackaged(a + b)
    ensures AllPackaged(a) && AllPackaged(b)
    ensures PairsOf(a + b) == PairsOf(a) + PairsOf(b)
  {
    hide Strip, Duration;
    forall i | 0 <= i < |b| ensures Packaged(b[i]) {
      assert b[i] == (a + b)[|a| + i];
    }
    forall i | 0 <= i < |a| ensures Packaged(a[i]) {
      assert a[i] == (a + b)[i];
    }
  }

  lemma {:induction false} PairsAgree(lines: seq<string>, pending: Option<string>)
    requires Timed(lines) && AllPackaged(EntriesFrom(lines, pending))
    requires pending.Some? ==> Held(pending).Some?
    ensures PairsFrom(lines, Held(pending)) == PairsOf(EntriesFrom(lines, pending))
    decreases |lines|
  {
    if lines != [] {
      hide KindOf, Duration, NameIndex, Strip, PairOf, HeldNext, EntryOf, PendingNext;
      var line, rest := lines[0], lines[1..];
      var next := PendingNext(line, pending);
      var e, es := EntryOf(line, pending), EntriesFrom(rest, next);
      PackagedParts(e, es);
      LineAgrees(line, pending);
      PairsAgree(rest, next);
    }
  }

  lemma {:induction false} InOrder(pairs: seq<(nat, real)>)
    requires forall i :: 0 <= i < |pairs| ==> pairs[i].0 == i
    ensures Extent(pairs) == |pairs|
    ensures forall i :: 0 <= i < |pairs| ==> LastFor(pairs, i) == Some(pairs[i].1)
  {
    if pairs != [] {
      InOrder(pairs[..|pairs| - 1]);
    }
  }

  /** A playlist the packager produces: timed, fully packaged and numbered 0, 1, 2, ... */
  ghost predicate Numbered(lines: seq<string>) {
    Timed(lines) && AllPackaged(Entries(lines)) && Contiguous(Entries(lines))
  }

  lemma NumberedParses(lines: seq<string>, nominal: nat)
    requires Numbered(lines)
    ensures Durations(lines, nominal) == AllSeconds(Entries(lines))
  {
    PairsAgree(lines, None);
    InOrder(Pairs(lines));
  }

  /** Playing time of what a player was served. */
  ghost function Total(ls: seq<Listed>): real {
    if ls == [] then 0.0
    else
      var last := ls[|ls| - 1];
      Total(ls[..|ls| - 1]) + match Held(last.inf) case Some(d) => d case None => 0.0
  }

  lemma {:induction false} TotalIsPrefixSum(site: Site, es: seq<Entry>, n: nat)
    requires AllPackaged(es) && n <= |es|
    ensures Total(Served(site, es[..n])) == P.PrefixSum(AllSeconds(es), n)
  {
    if n > 0 {
      TotalIsPrefixSum(site, es, n - 1);
      assert Served(site, es[..n])[..n - 1] == Served(site, es[..n - 1]);
    }
  }

  /** What the gate would read of a lesson packaged from this playlist: the
      packager stores None when nothing parsed. */
  function LessonOf(lines: seq<string>, nominal: nat): P.Lesson {
    var ds := Durations(lines, nominal);
    P.Lesson(if ds == [] then None else Some(ds), Some(|ds|))
  }

  lemma CutContiguous(es: seq<Entry>, ceiling: nat)
    requires Contiguous(es) && es != []
    ensures Cut(es, ceiling) == Min(ceiling, |es| - 1) + 1
  {
    var n := Cut(es, ceiling);
    assert n < |es| ==> Rank(es[n]) == n;
    assert n > 0 ==> Rank(es[n - 1]) == n - 1;
  }

  lemma GateOffset(lines: seq<string>, c: P.Settings, ceiling: nat)
    requires Numbered(lines) && Entries(lines) != []
    ensures P.EndOffset(c, LessonOf(lines, c.segmentSeconds), ceiling)
         == P.PrefixSum(AllSeconds(Entries(lines)), Min(ceiling, |Entries(lines)| - 1) + 1)
  {
    hide Entries, Durations, Timed, Contiguous, Packaged;
    NumberedParses(lines, c.segmentSeconds);
  }

  lemma ContiguousAscends(es: seq<Entry>)
    requires Contiguous(es)
    ensures Ascending(es)
  {
  }

  /** One timeline: the playing time served at a ceiling is exactly the offset the
      gate charges for that ceiling. */
  lemma {:induction false} ServedTimeIsGateTime(lines: seq<string>, c: P.Settings, ceiling: nat, site: Site)
    requires Numbered(lines) && Entries(lines) != []
    ensures Total(Listing(Rendered(lines, Some(ceiling), site)))
         == P.EndOffset(c, LessonOf(lines, c.segmentSeconds), ceiling)
  {
    hide Entries, Listing, Rendered, Total, Visible, Served, LessonOf, Contiguous, Ascending, Packaged, Timed,
      P.EndOffset, P.PrefixSum;
    var es := Entries(lines);
    GateOffset(lines, c, ceiling);
    PlayerSeesWindow(lines, Some(ceiling), site);
    ContiguousAscends(es);
    VisibleIsPrefix(es, ceiling);
    CutContiguous(es, ceiling);
    TotalIsPrefixSum(site, es, Min(ceiling, |es| - 1) + 1);
  }

  // ---------- Printed playlists ----------

  function InfLine(us: nat): string { EXTINF_COLON + PrintMicros(us) + "," }

  function BodyFrom(ds: seq<nat>, first: nat): seq<string> {
    if ds == [] then [] else [InfLine(ds[0]), SegmentName(first)] + BodyFrom(ds[1..], first + 1)
  }

  /** The playlist the packager writes for segments of these lengths (in microseconds). */
  function Printed(header: seq<string>, ds: seq<nat>): seq<string> {
    header + BodyFrom(ds, 0) + [ENDLIST]
  }

  ghost predicate HeaderOnly(lines: seq<string>) { forall i :: 0 <= i < |lines| ==> IsHeader(lines[i]) }

  function SecondsAll(ds: seq<nat>): seq<real> { seq(|ds|, i requires 0 <= i < |ds| => Seconds(ds[i])) }

  lemma InfShape(text: string)
    ensures var line := EXTINF_COLON + text + ",";
            && Strip(line) == line && EXTINF <= line
            && EXTINF_COLON <= line && line[|EXTINF_COLON|..] == text + ","
  {
    hide LStrip, RStrip;
    var line := EXTINF_COLON + text + ",";
    assert line[0] == '#' && line[|line| - 1] == ',';
    StripTight(line);
    assert line == EXTINF_COLON + (text + ",");
    assert EXTINF == EXTINF_COLON[..7] == line[..7];
  }

  lemma PrintedInf(us: nat)
    ensures Duration(Strip(InfLine(us))) == Some(Seconds(us))
    ensures KindOf(InfLine(us)).Inf?
  {
    hide PrintMicros, LeadingDecimal, LStrip, RStrip, Seconds;
    PrintedDecimal(us, ",");
    InfShape(PrintMicros(us));
  }

  function Numbering(ds: seq<nat>, first: nat): seq<(nat, real)> {
    seq(|ds|, i requires 0 <= i < |ds| => (first + i, Seconds(ds[i])))
  }

  /** The parser reads nothing in header lines. */
  lemma HeaderHasNoPairs(line: string, rest: seq<string>)
    requires !KindOf(line).Inf? && !KindOf(line).Segment? && !KindOf(line).Foreign?
    ensures Pairs([line] + rest) == Pairs(rest)
  {
    LexersAgree(line);
    assert ([line] + rest)[1..] == rest;
  }

  /** What the renderer makes of the printed body: a segment below index one
      million, and a line it never hides from there on. */
  function PrintedEntry(us: nat, i: nat): Entry {
    Entry(Some(InfLine(us)), if i < 1_000_000 then Some(i) else None, SegmentName(i))
  }

  function PrintedEntries(ds: seq<nat>, first: nat): seq<Entry> {
    seq(|ds|, i requires 0 <= i < |ds| => PrintedEntry(ds[i], first + i))
  }

  lemma SegmentKind(i: nat)
    ensures KindOf(SegmentName(i)) == if i < 1_000_000 then Segment(i) else Foreign
    ensures Duration(Strip(SegmentName(i))).None?
  {
    hide NameIndex, Padded;
    SegmentNameRoundTrip(i);
    assert SegmentName(i)[0] == 's';
    hide Strip;
  }

  lemma InfStep(us: nat)
    ensures PairOf(InfLine(us), None) == [] && HeldNext(InfLine(us), None) == Some(Seconds(us))
    ensures EntryOf(InfLine(us), None) == [] && PendingNext(InfLine(us), None) == Some(InfLine(us))
  {
    PrintedInf(us);
    hide Strip, NameIndex, KindOf, Duration, InfLine;
  }

  lemma NameStep(us: nat, i: nat)
    ensures PairOf(SegmentName(i), Some(Seconds(us))) == [(i, Seconds(us))]
    ensures HeldNext(SegmentName(i), Some(Seconds(us))) == None
    ensures EntryOf(SegmentName(i), Some(InfLine(us))) == [PrintedEntry(us, i)]
    ensures PendingNext(SegmentName(i), Some(InfLine(us))) == None
  {
    SegmentKind(i);
    SegmentNameRoundTrip(i);
    hide Strip, NameIndex, KindOf, Duration, InfLine, SegmentName, Seconds;
  }

  lemma BodyCons(inf: string, name: string, body: seq<string>, tail: seq<string>)
    ensures [inf, name] + body + tail == [inf] + ([name] + (body + tail))
  {
  }

  lemma {:induction false} BodyPairs(ds: seq<nat>, first: nat, tail: seq<string>)
    requires Pairs(tail) == []
    ensures Pairs(BodyFrom(ds, first) + tail) == Numbering(ds, first)
    decreases |ds|
  {
    hide PairOf, HeldNext, InfLine, SegmentName;
    if ds == [] {
      assert BodyFrom(ds, first) + tail == tail;
    } else {
      var inf, name, rest := InfLine(ds[0]), SegmentName(first), BodyFrom(ds[1..], first + 1) + tail;
      BodyPairs(ds[1..], first + 1, tail);
      BodyCons(inf, name, BodyFrom(ds[1..], first + 1), tail);
      InfStep(ds[0]);
      NameStep(ds[0], first);
      PairsCons(inf, [name] + rest, None);
      PairsCons(name, rest, Some(Seconds(ds[0])));
      NumberingCons(ds, first);
    }
  }

  lemma NumberingCons(ds: seq<nat>, first: nat)
    requires ds != []
    ensures Numbering(ds, first) == [(first, Seconds(ds[0]))] + Numbering(ds[1..], first + 1)
    ensures PrintedEntries(ds, first) == [PrintedEntry(ds[0], first)] + PrintedEntries(ds[1..], first + 1)
  {
    hide Seconds, PrintedEntry;
  }

  lemma {:induction false} HeaderPairs(header: seq<string>, rest: seq<string>)
    requires HeaderOnly(header)
    ensures Pairs(header + rest) == Pairs(rest)
  {
    if header == [] {
      assert header + rest == rest;
    } else {
      assert header + rest == [header[0]] + (header[1..] + rest);
      HeaderHasNoPairs(header[0], header[1..] + rest);
      HeaderPairs(header[1..], rest);
    }
  }

  lemma EndListKind()
    ensures KindOf(ENDLIST).EndList?
  {
    StripTight(ENDLIST);
    assert ENDLIST[4] == '-' && EXTINF[4] == 'I';
    assert ENDLIST[7] == 'E' && KEY[7] == 'K' && PLAYLIST_TYPE[7] == 'P';
  }

  /** Round trip: parsing a printed playlist gives back its durations, for any
      number of segments and any header. */
  lemma ParsePrinted(header: seq<string>, ds: seq<nat>, nominal: nat)
    requires HeaderOnly(header)
    ensures Durations(Printed(header, ds), nominal) == SecondsAll(ds)
  {
    hide KindOf, PairOf, HeldNext, InfLine, SegmentName, BodyFrom, Seconds;
    EndListKind();
    HeaderHasNoPairs(ENDLIST, []);
    assert [ENDLIST] + [] == [ENDLIST];
    BodyPairs(ds, 0, [ENDLIST]);
    HeaderPairs(header, BodyFrom(ds, 0) + [ENDLIST]);
    Regroup(header, BodyFrom(ds, 0), [ENDLIST]);
    InOrder(Numbering(ds, 0));
  }

  lemma EntriesCons(line: string, rest: seq<string>, pending: Option<string>)
    ensures EntriesFrom([line] + rest, pending) ==
        EntryOf(line, pending) + EntriesFrom(rest, PendingNext(line, pending))
  {
    assert ([line] + rest)[1..] == rest;
  }

  lemma {:induction false} BodyEntries(ds: seq<nat>, first: nat, tail: seq<string>)
    requires Entries(tail) == []
    ensures Entries(BodyFrom(ds, first) + tail) == PrintedEntries(ds, first)
    decreases |ds|
  {
    hide EntryOf, PendingNext, InfLine, SegmentName;
    if ds == [] {
      assert BodyFrom(ds, first) + tail == tail;
    } else {
      var inf, name, rest := InfLine(ds[0]), SegmentName(first), BodyFrom(ds[1..], first + 1) + tail;
      BodyEntries(ds[1..], first + 1, tail);
      BodyCons(inf, name, BodyFrom(ds[1..], first + 1), tail);
      InfStep(ds[0]);
      NameStep(ds[0], first);
      EntriesCons(inf, [name] + rest, None);
      EntriesCons(name, rest, Some(inf));
      NumberingCons(ds, first);
    }
  }

  lemma {:induction false} HeaderEntries(header: seq<string>, rest: seq<string>)
    requires HeaderOnly(header)
    ensures Entries(header + rest) == Entries(rest)
  {
    if header == [] {
      assert header + rest == rest;
    } else {
      assert header + rest == [header[0]] + (header[1..] + rest);
      EntriesCons(header[0], header[1..] + rest, None);
      HeaderEntries(header[1..], rest);
    }
  }

  lemma PrintedHasEntries(header: seq<string>, ds: seq<nat>)
    requires HeaderOnly(header)
    ensures Entries(Printed(header, ds)) == PrintedEntries(ds, 0)
  {
    EndListKind();
    EntriesCons(ENDLIST, [], None);
    assert [ENDLIST] + [] == [ENDLIST];
    hide KindOf, BodyFrom, PrintedEntries, PrintedEntry;
    BodyEntries(ds, 0, [ENDLIST]);
    HeaderEntries(header, BodyFrom(ds, 0) + [ENDLIST]);
    Regroup(header, BodyFrom(ds, 0), [ENDLIST]);
  }

  lemma TimedAppend(a: seq<string>, b: seq<string>)
    requires Timed(a) && Timed(b)
    ensures Timed(a + b)
  {
    hide KindOf, Strip, Duration;
    forall i | 0 <= i < |a + b| && KindOf((a + b)[i]).Inf? ensures Duration(Strip((a + b)[i])).Some? {
      assert i >= |a| ==> (a + b)[i] == b[i - |a|];
    }
  }

  lemma {:induction false} BodyTimed(ds: seq<nat>, first: nat)
    ensures Timed(BodyFrom(ds, first))
    decreases |ds|
  {
    hide KindOf, Strip, Duration, InfLine, SegmentName;
    if ds != [] {
      PrintedInf(ds[0]);
      SegmentKind(first);
      BodyTimed(ds[1..], first + 1);
      TimedAppend([InfLine(ds[0]), SegmentName(first)], BodyFrom(ds[1..], first + 1));
    }
  }

  /** Every playlist of up to a million segments is numbered. */
  lemma PrintedIsNumbered(header: seq<string>, ds: seq<nat>)
    requires HeaderOnly(header) && |ds| <= 1_000_000
    ensures Numbered(Printed(header, ds))
  {
    hide KindOf, Strip, Duration, BodyFrom, InfLine, SegmentName;
    EndListKind();
    BodyTimed(ds, 0);
    TimedAppend(header, BodyFrom(ds, 0));
    TimedAppend(header + BodyFrom(ds, 0), [ENDLIST]);
    PrintedHasEntries(header, ds);
    forall i | 0 <= i < |ds| ensures Packaged(PrintedEntry(ds[i], i)) {
      PrintedInf(ds[i]);
    }
  }

  /** The window hides segments of a printed playlist exactly below index one
      million: the renderer's name pattern stops at six digits, so a longer
      playlist shows its tail to everyone, whatever the ceiling. */
  lemma WindowHidesBelowAMillion(header: seq<string>, ds: seq<nat>, ceiling: nat, i: nat)
    requires HeaderOnly(header) && i < |ds|
    ensures |Entries(Printed(header, ds))| == |ds| && Entries(Printed(header, ds))[i] == PrintedEntry(ds[i], i)
    ensures Shown(PrintedEntry(ds[i], i), Some(ceiling)) <==> i <= ceiling || i >= 1_000_000
  {
    PrintedHasEntries(header, ds);
  }

  // ---------- Printed playlists only grow ----------

  lemma {:induction false} BodyHasNoHeaders(ds: seq<nat>, first: nat)
    ensures forall k :: 0 <= k < |BodyFrom(ds, first)| ==> !IsHeader(BodyFrom(ds, first)[k])
    decreases |ds|
  {
    hide KindOf, InfLine, SegmentName;
    if ds != [] {
      PrintedInf(ds[0]);
      SegmentKind(first);
      BodyHasNoHeaders(ds[1..], first + 1);
    }
  }

  lemma PrintedTagsAbove(header: seq<string>, ds: seq<nat>, floor: int)
    requires HeaderOnly(header)
    ensures TagsAbove(Printed(header, ds), floor)
  {
    hide KindOf, BodyFrom;
    EndListKind();
    BodyHasNoHeaders(ds, 0);
    var lines, body := Printed(header, ds), BodyFrom(ds, 0);
    assert forall i :: 0 <= i < |header| ==> lines[i] == header[i] && IsHeader(lines[i]);
    forall j | |header| <= j < |lines| ensures !IsHeader(lines[j]) {
      assert lines[j] == if j < |header| + |body| then body[j - |header|] else ENDLIST;
    }
  }

  lemma NamesDiffer(i: nat, j: nat)
    requires i != j
    ensures SegmentName(i) != SegmentName(j)
  {
    hide SegmentName, NameIndex;
    SegmentNameRoundTrip(i);
    SegmentNameRoundTrip(j);
  }

  lemma UrlsDiffer(site: Site, a: string, b: string)
    requires a != b
    ensures SegUrl(site, a) != SegUrl(site, b)
  {
    var pre, post := site.base + "/seg/", "?t=" + site.token;
    assert SegUrl(site, a) == pre + a + post && SegUrl(site, b) == pre + b + post;
    assert a == SegUrl(site, a)[|pre|..|SegUrl(site, a)| - |post|];
    assert b == SegUrl(site, b)[|pre|..|SegUrl(site, b)| - |post|];
  }

  lemma UrlIsNoName(site: Site, a: string, i: nat)
    ensures SegUrl(site, a) != SegmentName(i)
  {
    assert SegUrl(site, a)[0] == 'h' && SegmentName(i)[0] == 's';
  }

  lemma PrintedDistinct(site: Site, ds: seq<nat>)
    ensures Distinct(site, PrintedEntries(ds, 0))
  {
    hide SegUrl, SegmentName, InfLine;
    var es := PrintedEntries(ds, 0);
    forall i, j | 0 <= i < j < |es| ensures Served(site, es)[i] != Served(site, es)[j] {
      NamesDiffer(i, j);
      UrlsDiffer(site, SegmentName(i), SegmentName(j));
      UrlIsNoName(site, SegmentName(i), j);
    }
  }

  lemma PrintedOrderedIff(ds: seq<nat>)
    ensures OrderedAbove(PrintedEntries(ds, 0), -1) <==> |ds| <= 1_000_000
  {
    hide SegmentName, InfLine;
    var es := PrintedEntries(ds, 0);
    assert forall i :: 0 <= i < |es| ==> Rank(es[i]) == if i < 1_000_000 then i else -1;
    if |ds| > 1_000_000 {
      assert Rank(es[999_999]) > Rank(es[1_000_000]);
    }
  }

  /** The served files of a packaged lesson, headers and all, only ever grow, exactly as
      long as its segment names stay within six digits. */
  lemma PrintedAppendOnlyIff(header: seq<string>, ds: seq<nat>, site: Site)
    requires HeaderOnly(header)
    ensures (forall low, high :: -1 <= low <= high ==> FileGrows(Printed(header, ds), site, low, high))
       <==> |ds| <= 1_000_000
  {
    hide Printed, Distinct, OrderedAbove, TagsAbove, FileGrows, PrintedEntries;
    PrintedHasEntries(header, ds);
    PrintedDistinct(site, ds);
    PrintedTagsAbove(header, ds, -1);
    PrintedOrderedIff(ds);
    FileAppendOnlyIff(Printed(header, ds), site, -1);
  }

  // ---------- Evenly cut lessons, from packager to gate ----------

  /** All segments equally long, the last one at most as long: forced keyframes. */
  ghost predicate EvenlyCut(ds: seq<nat>, us: nat) {
    ds != [] && ds[|ds| - 1] <= us && forall i :: 0 <= i < |ds| - 1 ==> ds[i] == us
  }

  lemma PackagedEvenly(header: seq<string>, ds: seq<nat>, us: nat, c: P.Settings)
    requires HeaderOnly(header) && EvenlyCut(ds, us)
    ensures var lesson := LessonOf(Printed(header, ds), c.segmentSeconds);
            && P.Even(c, lesson, Seconds(us)) && lesson.HasDurations()
            && lesson.durations == Some(SecondsAll(ds)) && lesson.segmentsCount == Some(|ds|)
  {
    hide Durations, Printed;
    ParsePrinted(header, ds, c.segmentSeconds);
    assert |SecondsAll(ds)| > 0;
  }

  /** A lesson packaged by forced keyframes, its recorded durations parsed from its own
      playlist, is completed by an honest viewer at any rate of two and above with a
      look-ahead of two and above. */
  lemma HonestViewerOfPackagedLesson(header: seq<string>, ds: seq<nat>, us: nat, c: P.Settings, times: seq<P.Micros>)
    requires HeaderOnly(header) && EvenlyCut(ds, us) && c.lookahead >= 2 && c.maxRate >= 2.0 && |times| == |ds|
    requires forall i :: 0 < i < |times| ==> times[i] >= times[i - 1] + P.Pace(c, Seconds(us)) * P.SECOND
    ensures var lesson := LessonOf(Printed(header, ds), c.segmentSeconds);
            && P.AllAccepted(c, lesson, P.FRESH, P.Sequential(times))
            && P.Run(c, lesson, P.FRESH, P.Sequential(times)).completedAt == Some(times[|times| - 1])
  {
    hide LessonOf, Printed, P.Even, P.AllAccepted, P.Run, P.PaceFits;
    var lesson := LessonOf(Printed(header, ds), c.segmentSeconds);
    PackagedEvenly(header, ds, us, c);
    P.PaceUsuallyFits(c, Seconds(us));
    P.HonestViewerCompletes(c, lesson, Seconds(us), times);
  }
}
