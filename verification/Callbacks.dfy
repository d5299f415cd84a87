/**
  The callbacks handed to the scans, with the request state each of them updates
  (http-server.cpp, wacsc.cpp).  `OnLog` stands for the function pointer and its environment.
 */
module Callbacks {
  import opened LogStore
  import opened MacText
  import opened Histogram

  /** `size_t`: unsigned 64-bit arithmetic wraps around. */
  const TWO_TO_THE_64: int := 0x1_0000_0000_0000_0000
  type SizeT = n: int | 0 <= n < TWO_TO_THE_64

  function ToSizeT(n: int): SizeT {
    n % TWO_TO_THE_64
  }

  const UNLIMITED: SizeT := TWO_TO_THE_64 - 1

  /** A record as a JSON object; a last probe has no device and no signal. */
  function ReportText(r: Report): (s: string) {
    "{\"sa\":\"" + MacToStr(r.sa) + "\",\"dt\":" + Dec(r.dt)
    + (if r.data.Some?
       then ",\"device_id\":" + Dec(r.data.value.deviceId) + ",\"ssi_signal\":" + Dec(r.data.value.ssiSignal)
       else "")
    + "}"
  }

  // ---- State as values -------------------------------------------------------------------

  /** The page still to fill: positions passed so far, first position, number of positions. */
  datatype Page = Page(position: SizeT, offset: SizeT, count: SizeT)

  datatype PageStep = SkipRecord | EmitRecord | AllDone

  /** The test at the head of `onReqLog`; the sum is 64-bit unsigned. */
  function HttpPageStep(p: Page): PageStep {
    if p.position < p.offset then SkipRecord
    else if p.position >= ToSizeT(p.offset + p.count) then AllDone
    else EmitRecord
  }

  /** The test at the head of the `onLog` of the command line tool: a count of -1 has no end. */
  function WacscPageStep(p: Page): PageStep {
    if p.position < p.offset then SkipRecord
    else if p.count != UNLIMITED && p.position >= ToSizeT(p.offset + p.count) then AllDone
    else EmitRecord
  }

  function Advance(p: Page): Page {
    p.(position := ToSizeT(p.position + 1))
  }

  /** What a callback and its environment amount to between two calls. */
  datatype View =
    | NoView
    | HttpPage(page: Page, sum: int, text: string)
    | HttpCount(page: Page, sum: int, text: string)
    | HistogramView(params: Params, buckets: map<int, nat>, interrupted: bool)
    | WacscPage(page: Page, lines: seq<Report>, interrupted: bool)
    | WacscCount(total: SizeT, interrupted: bool)

  ghost predicate ValidView(v: View) {
    v.HistogramView? ==> v.params.step > 0
  }

  datatype Fed = Fed(view: View, stopped: bool)

  /** One call of the callback: the new state, and whether it asked to stop. */
  function Step(v: View, r: Report): (f: Fed)
    requires ValidView(v)
    ensures ValidView(f.view)
  {
    match v
    case NoView => Fed(v, true)
    case HttpPage(page, sum, text) =>
      (match HttpPageStep(page)
       case SkipRecord => Fed(HttpPage(Advance(page), sum, text), false)
       case AllDone => Fed(v, true)
       case EmitRecord => Fed(HttpPage(Advance(page), sum, text + ReportText(r) + ","), false))
    case HttpCount(page, sum, text) => Fed(HttpCount(page, sum + 1, text), false)
    case HistogramView(params, buckets, i) => Fed(HistogramView(params, PutTime(buckets, params, r.dt), i), i)
    case WacscPage(page, lines, i) =>
      (match WacscPageStep(page)
       case SkipRecord => Fed(WacscPage(Advance(page), lines, i), false)
       case AllDone => Fed(v, true)
       case EmitRecord => Fed(WacscPage(Advance(page), lines + [r], i), i))
    case WacscCount(total, i) => Fed(WacscCount(ToSizeT(total + 1), i), i)
  }

  /** A scan's calls, record by record, until the callback asks to stop. */
  function Feed(v: View, rs: seq<Report>): (f: Fed)
    requires ValidView(v)
    ensures ValidView(f.view)
  {
    if rs == [] then Fed(v, false) else
      var f := Feed(v, rs[..|rs| - 1]);
      if f.stopped then f else Step(f.view, rs[|rs| - 1])
  }

  /** Several scans with one callback; each begins anew, whatever the one before asked. */
  function FeedAll(v: View, scans: seq<seq<Report>>): (w: View)
    requires ValidView(v)
    ensures ValidView(w)
  {
    if scans == [] then v else Feed(FeedAll(v, scans[..|scans| - 1]), scans[|scans| - 1]).view
  }

  lemma FeedNext(v: View, rs: seq<Report>, r: Report)
    requires ValidView(v)
    ensures Feed(v, rs + [r]) == if Feed(v, rs).stopped then Feed(v, rs) else Step(Feed(v, rs).view, r)
  {
    assert (rs + [r])[..|rs|] == rs;
  }

  lemma {:induction false} FeedAppend(v: View, a: seq<Report>, b: seq<Report>)
    requires ValidView(v)
    ensures Feed(v, a + b) == if Feed(v, a).stopped then Feed(v, a) else Feed(Feed(v, a).view, b)
  {
    if b == [] {
      assert a + b == a;
    } else {
      var init := b[..|b| - 1];
      assert (a + b)[..|a + b| - 1] == a + init;
      FeedAppend(v, a, init);
    }
  }

  // ---- State as objects --------------------------------------------------------------------

  /** `struct ReqEnv` of http-server.cpp. */
  class HttpReqEnv {
    var retval: string
    var sum: int
    var position: SizeT
    var offset: SizeT
    var count: SizeT

    constructor (offset: SizeT, count: SizeT)
      ensures retval == "" && sum == 0 && PageState() == Page(0, offset, count)
    {
      this.retval, this.sum, this.position, this.offset, this.count := "", 0, 0, offset, count;
    }

    function PageState(): Page
      reads this
    {
      Page(position, offset, count)
    }

    method OnReqLog(rep: Report) returns (stop: bool)
      modifies this`position, this`retval
      ensures Fed(HttpPage(PageState(), sum, retval), stop) == Step(old(HttpPage(PageState(), sum, retval)), rep)
    {
      if position < offset {
        position := (position + 1) % TWO_TO_THE_64;
        return false;
      }
      if position >= (offset + count) % TWO_TO_THE_64 {
        return true;
      }
      position := (position + 1) % TWO_TO_THE_64;
      retval := retval + "{\"sa\":\"" + MacToStr(rep.sa) + "\",\"dt\":" + Dec(rep.dt);
      if rep.data.Some? {
        retval := retval + ",\"device_id\":" + Dec(rep.data.value.deviceId)
                  + ",\"ssi_signal\":" + Dec(rep.data.value.ssiSignal);
      }
      retval := retval + "},";
      TextPieces(old(retval), rep);
      stop := false;
    }

    method OnReqLogCount(rep: Report) returns (stop: bool)
      modifies this`sum
      ensures Fed(HttpCount(PageState(), sum, retval), stop) == Step(old(HttpCount(PageState(), sum, retval)), rep)
    {
      sum := sum + 1;
      stop := false;
    }
  }

  lemma TextPieces(s: string, rep: Report)
    ensures var head := s + "{\"sa\":\"" + MacToStr(rep.sa) + "\",\"dt\":" + Dec(rep.dt);
            s + ReportText(rep) + ","
            == (if rep.data.Some?
                then head + ",\"device_id\":" + Dec(rep.data.value.deviceId)
                     + ",\"ssi_signal\":" + Dec(rep.data.value.ssiSignal)
                else head) + "},"
  {
    hide MacToStr, Dec;
    assert "},"== "}" + ",";
  }

  /** The global `reqEnv` of wacsc.cpp, with the lines it has printed. */
  class WacscReqEnv {
    var interruptFlag: bool
    var position: SizeT
    var offset: SizeT
    var count: SizeT
    var sum: SizeT
    var printed: seq<Report>

    constructor (offset: SizeT, count: SizeT)
      ensures !interruptFlag && sum == 0 && printed == [] && PageState() == Page(0, offset, count)
    {
      this.interruptFlag, this.printed, this.sum := false, [], 0;
      this.position, this.offset, this.count := 0, offset, count;
    }

    function PageState(): Page
      reads this
    {
      Page(position, offset, count)
    }

    method OnLog(rep: Report) returns (stop: bool)
      modifies this`position, this`printed
      ensures Fed(WacscPage(PageState(), printed, interruptFlag), stop)
              == Step(old(WacscPage(PageState(), printed, interruptFlag)), rep)
    {
      if position < offset {
        position := (position + 1) % TWO_TO_THE_64;
        return false;
      }
      if count != UNLIMITED && position >= (offset + count) % TWO_TO_THE_64 {
        return true;
      }
      position := (position + 1) % TWO_TO_THE_64;
      printed := printed + [rep];
      stop := interruptFlag;
    }

    method OnLogCount(rep: Report) returns (stop: bool)
      modifies this`sum
      ensures Fed(WacscCount(sum, interruptFlag), stop) == Step(old(WacscCount(sum, interruptFlag)), rep)
    {
      sum := (sum + 1) % TWO_TO_THE_64;
      stop := interruptFlag;
    }
  }

  /** A callback with its environment; `NoCallback` is a null pointer for either. */
  datatype OnLog =
    | NoCallback
    | ReqLog(req: HttpReqEnv)
    | ReqLogCount(req: HttpReqEnv)
    | LogHistogram(h: HistogramMacsPerTime)
    | PrintLog(e: WacscReqEnv)
    | PrintLogCount(e: WacscReqEnv)
    | PrintHistogram(h: HistogramMacsPerTime, e: WacscReqEnv)
  {
    ghost function Footprint(): set<object> {
      match this
      case NoCallback => {}
      case ReqLog(req) => {req}
      case ReqLogCount(req) => {req}
      case LogHistogram(h) => {h}
      case PrintLog(e) => {e}
      case PrintLogCount(e) => {e}
      case PrintHistogram(h, e) => {h, e}
    }

    ghost function State(): (v: View)
      reads Footprint()
    {
      match this
      case NoCallback => NoView
      case ReqLog(req) => HttpPage(req.PageState(), req.sum, req.retval)
      case ReqLogCount(req) => HttpCount(req.PageState(), req.sum, req.retval)
      case LogHistogram(h) => HistogramView(h.Settings(), h.histogram, false)
      case PrintLog(e) => WacscPage(e.PageState(), e.printed, e.interruptFlag)
      case PrintLogCount(e) => WacscCount(e.sum, e.interruptFlag)
      case PrintHistogram(h, e) => HistogramView(h.Settings(), h.histogram, e.interruptFlag)
    }

    ghost predicate Valid()
      reads Footprint()
    {
      ValidView(State())
    }

    /** The call through the pointer. */
    method Call(rep: Report) returns (stop: bool)
      requires !NoCallback? && Valid()
      modifies Footprint()
      ensures Fed(State(), stop) == Step(old(State()), rep)
      ensures Valid()
    {
      match this
      case ReqLog(req) => stop := req.OnReqLog(rep);
      case ReqLogCount(req) => stop := req.OnReqLogCount(rep);
      case LogHistogram(h) => h.Put(rep.dt); stop := false;
      case PrintLog(e) => stop := e.OnLog(rep);
      case PrintLogCount(e) => stop := e.OnLogCount(rep);
      case PrintHistogram(h, e) => h.Put(rep.dt); stop := e.interruptFlag;
    }
  }
}
