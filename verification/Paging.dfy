/**
  Pages over several filters: one request state is shared by the scans of all filters, each of
  which begins anew (http-server.cpp, wacsc.cpp).
 */
module Paging {
  import opened Seqs
  import opened LogStore
  import opened Json
  import opened Histogram
  import opened Callbacks

  /** The page, the records emitted to it, and whether the scan was stopped. */
  datatype Walked = Walked(page: Page, out: seq<Report>, stopped: bool)

  function PageTest(http: bool, p: Page): PageStep {
    if http then HttpPageStep(p) else WacscPageStep(p)
  }

  /** What the records of one scan do to a page. */
  function Walk(http: bool, p: Page, rs: seq<Report>): Walked {
    if rs == [] then Walked(p, [], false) else
      var w := Walk(http, p, rs[..|rs| - 1]);
      if w.stopped then w else
        match PageTest(http, w.page)
        case SkipRecord => Walked(Advance(w.page), w.out, false)
        case AllDone => Walked(w.page, w.out, true)
        case EmitRecord => Walked(Advance(w.page), w.out + [rs[|rs| - 1]], false)
  }

  /** The same over several scans. */
  function WalkAll(http: bool, p: Page, scans: seq<seq<Report>>): Walked {
    if scans == [] then Walked(p, [], false) else
      var w := WalkAll(http, p, scans[..|scans| - 1]);
      var x := Walk(http, w.page, scans[|scans| - 1]);
      Walked(x.page, w.out + x.out, x.stopped)
  }

  function Texts(rs: seq<Report>): seq<string> {
    Map(ReportText, rs)
  }

  // ---- The callbacks walk the page ---------------------------------------------------------

  lemma {:induction false} HttpFeedWalks(p: Page, sum: int, text: string, rs: seq<Report>)
    ensures var w := Walk(true, p, rs);
            Feed(HttpPage(p, sum, text), rs) == Fed(HttpPage(w.page, sum, text + WithCommas(Texts(w.out))), w.stopped)
  {
    hide ReportText, Texts, WithCommas;
    if rs != [] {
      var init, r := rs[..|rs| - 1], rs[|rs| - 1];
      HttpFeedWalks(p, sum, text, init);
      var w := Walk(true, p, init);
      OneMoreText(text, w.out, r);
    } else {
      NoTexts(text);
    }
  }

  lemma {:induction false} HttpFeedAllWalks(p: Page, sum: int, text: string, scans: seq<seq<Report>>)
    ensures var w := WalkAll(true, p, scans);
            FeedAll(HttpPage(p, sum, text), scans) == HttpPage(w.page, sum, text + WithCommas(Texts(w.out)))
  {
    hide Feed, Walk, Texts, WithCommas;
    if scans != [] {
      var init, rs := scans[..|scans| - 1], scans[|scans| - 1];
      HttpFeedAllWalks(p, sum, text, init);
      var w := WalkAll(true, p, init);
      var mid := text + WithCommas(Texts(w.out));
      HttpFeedWalks(w.page, sum, mid, rs);
      var x := Walk(true, w.page, rs);
      TextsAppend(text, w.out, x.out);
    } else {
      NoTexts(text);
    }
  }

  lemma OneMoreText(text: string, out: seq<Report>, r: Report)
    ensures text + WithCommas(Texts(out + [r])) == text + WithCommas(Texts(out)) + ReportText(r) + ","
  {
    hide ReportText;
    assert Texts(out + [r]) == Texts(out) + [ReportText(r)];
    assert Texts(out + [r])[..|out|] == Texts(out);
    assert text + WithCommas(Texts(out)) + ReportText(r) + "," == text + (WithCommas(Texts(out)) + ReportText(r) + ",");
  }

  lemma NoTexts(text: string)
    ensures text + WithCommas(Texts([])) == text
  {
  }

  lemma TextsAppend(text: string, a: seq<Report>, b: seq<Report>)
    ensures text + WithCommas(Texts(a)) + WithCommas(Texts(b)) == text + WithCommas(Texts(a + b))
  {
    hide ReportText, WithCommas;
    MapAppend(ReportText, a, b);
    WithCommasAppend(Texts(a), Texts(b));
  }

  lemma {:induction false} WacscFeedWalks(p: Page, lines: seq<Report>, rs: seq<Report>)
    ensures var w := Walk(false, p, rs);
            Feed(WacscPage(p, lines, false), rs) == Fed(WacscPage(w.page, lines + w.out, false), w.stopped)
  {
    if rs != [] {
      var init, r := rs[..|rs| - 1], rs[|rs| - 1];
      WacscFeedWalks(p, lines, init);
      var w := Walk(false, p, init);
      assert lines + w.out + [r] == lines + (w.out + [r]);
    } else {
      assert lines + [] == lines;
    }
  }

  lemma {:induction false} WacscFeedAllWalks(p: Page, lines: seq<Report>, scans: seq<seq<Report>>)
    ensures var w := WalkAll(false, p, scans);
            FeedAll(WacscPage(p, lines, false), scans) == WacscPage(w.page, lines + w.out, false)
  {
    if scans != [] {
      var init, rs := scans[..|scans| - 1], scans[|scans| - 1];
      WacscFeedAllWalks(p, lines, init);
      var w := WalkAll(false, p, init);
      WacscFeedWalks(w.page, lines + w.out, rs);
      var x := Walk(false, w.page, rs);
      assert (lines + w.out) + x.out == lines + (w.out + x.out);
    } else {
      assert lines + [] == lines;
    }
  }

  // ---- The page is a slice ------------------------------------------------------------------

  function Clip(n: int, hi: nat): nat {
    if n < 0 then 0 else if n > hi then hi else n
  }

  /** The end of the page does not wrap around 64 bits, or there is none. */
  predicate EndFits(http: bool, p: Page) {
    (!http && p.count == UNLIMITED) || p.offset + p.count < TWO_TO_THE_64
  }

  /** A page without an end counts its positions on: they must fit 64 bits. */
  predicate Countable(http: bool, p: Page, n: nat) {
    http || p.count != UNLIMITED || n < TWO_TO_THE_64
  }

  /** The records of a scan whose positions, counted on from the page's, lie in the page. */
  function Window(p: Page, rs: seq<Report>): seq<Report> {
    ClipOrder(p, |rs|);
    rs[Clip(p.offset - p.position, |rs|)..Clip(p.offset + p.count - p.position, |rs|)]
  }

  lemma ClipOrder(p: Page, n: nat)
    ensures Clip(p.offset - p.position, n) <= Clip(p.offset + p.count - p.position, n)
  {
  }

  /** The page's position after n records: it stays at the end of the page. */
  function PositionAfter(p: Page, n: nat): int {
    if p.position >= p.offset + p.count then p.position else Min(p.position + n, p.offset + p.count)
  }

  lemma WindowNext(p: Page, rs: seq<Report>)
    requires rs != []
    ensures var n := |rs| - 1;
            Window(p, rs) == Window(p, rs[..n])
                             + if p.offset <= p.position + n < p.offset + p.count then [rs[n]] else []
  {
  }

  /** What the test of a page answers after n records, when its end fits. */
  lemma PageTestAfter(http: bool, p: Page, n: nat)
    requires EndFits(http, p) && Countable(http, p, p.position + n + 1)
    ensures var q := p.(position := PositionAfter(p, n));
            && PageTest(http, q) == (if p.position + n < p.offset then SkipRecord
                                     else if p.position + n < p.offset + p.count then EmitRecord
                                     else AllDone)
            && (p.position + n < p.offset + p.count ==> Advance(q) == p.(position := PositionAfter(p, n + 1)))
            && (p.position + n >= p.offset + p.count ==> q == p.(position := PositionAfter(p, n + 1)))
  {
  }

  /** One scan emits the window of the page, and leaves the page behind it. */
  lemma {:induction false} WalkWindow(http: bool, p: Page, rs: seq<Report>)
    requires EndFits(http, p) && Countable(http, p, p.position + |rs|)
    ensures var w := Walk(http, p, rs);
            && w.page == p.(position := PositionAfter(p, |rs|)) && w.out == Window(p, rs)
            && (w.stopped ==> p.position + |rs| > p.offset + p.count)
  {
    hide Window, PositionAfter, PageTest, Advance, Clip;
    if rs != [] {
      var n := |rs| - 1;
      WalkWindow(http, p, rs[..n]);
      WindowNext(p, rs);
      PageTestAfter(http, p, n);
      var w := Walk(http, p, rs[..n]);
      assert w.out + [] == w.out;
    } else {
      EmptyWindow(p);
    }
  }

  lemma EmptyWindow(p: Page)
    ensures Window(p, []) == [] && PositionAfter(p, 0) == p.position
  {
  }

  lemma SliceAppend(t: seq<Report>, rs: seq<Report>, o: SizeT, c: SizeT, p: Page)
    requires p.position == PositionAfter(Page(0, o, c), |t|) && p.offset == o && p.count == c
    ensures Slice(t + rs, o, c) == Slice(t, o, c) + Window(p, rs)
    ensures PositionAfter(p, |rs|) == PositionAfter(Page(0, o, c), |t + rs|)
  {
  }

  /**
    Over any list of scans the records emitted are exactly the positions offset to
    offset + count - 1 of the scans' concatenation, when the end of the page fits 64 bits.
   */
  lemma {:induction false} PageIsSlice(http: bool, o: SizeT, c: SizeT, scans: seq<seq<Report>>)
    requires EndFits(http, Page(0, o, c)) && Countable(http, Page(0, o, c), |Flatten(scans)|)
    ensures 0 <= PositionAfter(Page(0, o, c), |Flatten(scans)|) < TWO_TO_THE_64
    ensures WalkAll(http, Page(0, o, c), scans).out == Slice(Flatten(scans), o, c)
    ensures WalkAll(http, Page(0, o, c), scans).page
            == Page(0, o, c).(position := PositionAfter(Page(0, o, c), |Flatten(scans)|))
  {
    hide Walk, Slice, Window, PositionAfter;
    var page := Page(0, o, c);
    if scans != [] {
      var init, rs := scans[..|scans| - 1], scans[|scans| - 1];
      PageIsSlice(http, o, c, init);
      var w := WalkAll(http, page, init);
      PositionFits(http, page, |Flatten(init)|, |rs|);
      WalkWindow(http, w.page, rs);
      SliceAppend(Flatten(init), rs, o, c, w.page);
    } else {
      EmptyPage(o, c);
    }
  }

  lemma PositionFits(http: bool, p: Page, n: nat, m: nat)
    requires p.position == 0 && EndFits(http, p) && Countable(http, p, n + m)
    ensures 0 <= PositionAfter(p, n) < TWO_TO_THE_64 && Countable(http, p, PositionAfter(p, n) + m)
  {
  }

  lemma EmptyPage(o: SizeT, c: SizeT)
    ensures Slice<Report>([], o, c) == [] && PositionAfter(Page(0, o, c), 0) == 0
  {
  }

  /** With an end that wraps around, no record is emitted at all. */
  lemma {:induction false} WrappedPageIsEmpty(http: bool, o: SizeT, c: SizeT, scans: seq<seq<Report>>)
    requires !EndFits(http, Page(0, o, c))
    ensures var w := WalkAll(http, Page(0, o, c), scans);
            w.out == [] && w.page.position <= o && w.page == Page(w.page.position, o, c)
  {
    if scans != [] {
      var init := scans[..|scans| - 1];
      WrappedPageIsEmpty(http, o, c, init);
      WrappedWalkIsEmpty(http, WalkAll(http, Page(0, o, c), init).page, scans[|scans| - 1]);
    }
  }

  lemma {:induction false} WrappedWalkIsEmpty(http: bool, p: Page, rs: seq<Report>)
    requires !EndFits(http, p) && p.position <= p.offset
    ensures var w := Walk(http, p, rs);
            w.out == [] && w.page.position <= p.offset && w.page == p.(position := w.page.position)
  {
    if rs != [] {
      WrappedWalkIsEmpty(http, p, rs[..|rs| - 1]);
    }
  }

  /** The page asked for is the page given exactly when its end fits or it begins behind the last record. */
  lemma {:induction false} PageGuard(http: bool, o: SizeT, c: SizeT, scans: seq<seq<Report>>)
    requires Countable(http, Page(0, o, c), |Flatten(scans)|)
    ensures WalkAll(http, Page(0, o, c), scans).out == Slice(Flatten(scans), o, c)
            <==> EndFits(http, Page(0, o, c)) || |Flatten(scans)| <= o
  {
    if EndFits(http, Page(0, o, c)) {
      PageIsSlice(http, o, c, scans);
    } else {
      WrappedPageIsEmpty(http, o, c, scans);
    }
  }

  /** A page followed by the next page is the page of both, over any scans. */
  lemma {:induction false} PagesJoin(http: bool, o: SizeT, c: SizeT, d: SizeT, scans: seq<seq<Report>>)
    requires o + c + d < TWO_TO_THE_64 && (http || c + d != UNLIMITED || |Flatten(scans)| < TWO_TO_THE_64)
    ensures WalkAll(http, Page(0, o, c), scans).out + WalkAll(http, Page(0, o + c, d), scans).out
            == WalkAll(http, Page(0, o, c + d), scans).out
  {
    hide WalkAll, Flatten, Slice, PositionAfter;
    PageIsSlice(http, o, c, scans);
    PageIsSlice(http, o + c, d, scans);
    PageIsSlice(http, o, c + d, scans);
    SlicesJoin(Flatten(scans), o, c, d);
  }

  lemma SlicesJoin(all: seq<Report>, o: nat, c: nat, d: nat)
    ensures Slice(all, o, c) + Slice(all, o + c, d) == Slice(all, o, c + d)
  {
  }

  // ---- The other callbacks over several scans ------------------------------------------------

  function Dts(rs: seq<Report>): seq<int> {
    Map((r: Report) => r.dt as int, rs)
  }

  lemma {:induction false} HistogramFeed(p: Params, b: map<int, nat>, rs: seq<Report>)
    requires p.step > 0
    ensures Feed(HistogramView(p, b, false), rs) == Fed(HistogramView(p, PutTimes(b, p, Dts(rs)), false), false)
  {
    if rs != [] {
      HistogramFeed(p, b, rs[..|rs| - 1]);
      assert Dts(rs)[..|rs| - 1] == Dts(rs[..|rs| - 1]);
    }
  }

  lemma {:induction false} PutTimesAppend(b: map<int, nat>, p: Params, s: seq<int>, t: seq<int>)
    requires p.step > 0
    ensures PutTimes(b, p, s + t) == PutTimes(PutTimes(b, p, s), p, t)
  {
    if t == [] {
      assert s + t == s;
    } else {
      assert (s + t)[..|s + t| - 1] == s + t[..|t| - 1];
      PutTimesAppend(b, p, s, t[..|t| - 1]);
    }
  }

  /** A histogram callback counts every record of every scan. */
  lemma {:induction false} HistogramFeedAll(p: Params, b: map<int, nat>, scans: seq<seq<Report>>)
    requires p.step > 0
    ensures FeedAll(HistogramView(p, b, false), scans) == HistogramView(p, PutTimes(b, p, Dts(Flatten(scans))), false)
  {
    if scans != [] {
      var init, rs := scans[..|scans| - 1], scans[|scans| - 1];
      HistogramFeedAll(p, b, init);
      HistogramFeed(p, PutTimes(b, p, Dts(Flatten(init))), rs);
      PutTimesAppend(b, p, Dts(Flatten(init)), Dts(rs));
      assert Dts(Flatten(init) + rs) == Dts(Flatten(init)) + Dts(rs);
    }
  }

  lemma {:induction false} HttpCountFeed(p: Page, sum: int, text: string, rs: seq<Report>)
    ensures Feed(HttpCount(p, sum, text), rs) == Fed(HttpCount(p, sum + |rs|, text), false)
  {
    if rs != [] {
      HttpCountFeed(p, sum, text, rs[..|rs| - 1]);
    }
  }

  lemma ToSizeTAdds(a: int, b: int)
    ensures ToSizeT(ToSizeT(a) + b) == ToSizeT(a + b)
  {
  }

  lemma {:induction false} WacscCountFeedAll(total: SizeT, scans: seq<seq<Report>>)
    ensures FeedAll(WacscCount(total, false), scans) == WacscCount(ToSizeT(total + |Flatten(scans)|), false)
  {
    if scans != [] {
      var init, rs := scans[..|scans| - 1], scans[|scans| - 1];
      WacscCountFeedAll(total, init);
      WacscCountFeed(ToSizeT(total + |Flatten(init)|), rs);
      ToSizeTAdds(total + |Flatten(init)|, |rs|);
      hide ToSizeT, Feed;
    }
  }

  lemma {:induction false} WacscCountFeed(total: SizeT, rs: seq<Report>)
    ensures Feed(WacscCount(total, false), rs) == Fed(WacscCount(ToSizeT(total + |rs|), false), false)
  {
    if rs != [] {
      WacscCountFeed(total, rs[..|rs| - 1]);
      ToSizeTAdds(total + |rs| - 1, 1);
    }
  }

  /** Scans without records change nothing. */
  lemma {:induction false} EmptyScans(v: View, scans: seq<seq<Report>>, more: seq<seq<Report>>)
    requires ValidView(v) && forall s :: s in more ==> s == []
    ensures FeedAll(v, scans + more) == FeedAll(v, scans)
  {
    if more == [] {
      assert scans + more == scans;
    } else {
      var init := more[..|more| - 1];
      assert (scans + more)[..|scans + more| - 1] == scans + init;
      forall s | s in init ensures s == [] {
        assert s in more;
      }
      EmptyScans(v, scans, init);
      assert more[|more| - 1] in more;
    }
  }
}
