/**
 The generator page's own state and decisions: what `update_qrcode` does
 with the message (nothing for a blank one, a plain QR code, or a tracked one
 created through the server), the page-level variables it leaves behind, the
 download file names that follow from them, and the rows `loadDashboard`
 shows. The QR symbol itself is represented by the text it encodes.
 */
module Client {
  import opened Wrappers
  import Text
  import Hex
  import Ledger
  import Download

  /** What `update_qrcode` does with the form. */
  datatype Action =
    | ShowPrompt                   // "Enter some content to generate a QR code..."
    | RequestTracked(url: string)  // POST /api/create-qr with {url: text}
    | RenderPlain(text: string)    // create_qrcode(text, ...)

  /**
   The message is trimmed first; a blank message only shows the prompt.
   Otherwise the trimmed text is sent to the server or encoded directly,
   depending on the tracking checkbox.
   */
  function Decide(msg: string, useTracking: bool): (a: Action)
    ensures a.ShowPrompt? <==> Text.AllSpace(msg)
    ensures a.RequestTracked? <==> useTracking && !Text.AllSpace(msg)
    ensures a.RequestTracked? ==> a.url == Text.Trim(msg) && a.url != ""
    ensures a.RenderPlain? ==> a.text == Text.Trim(msg) && a.text != ""
  {
    var text := Text.Trim(msg);
    if text == "" then ShowPrompt
    else if useTracking then RequestTracked(text)
    else RenderPlain(text)
  }

  /** A tracked request sent by the page is never rejected as missing its URL. */
  lemma TrackedRequestHasUrl(msg: string, s: Ledger.Store, random: seq<Hex.byte>, now: nat, o: Ledger.Origin)
    requires |random| == Hex.CodeBytes
    requires Decide(msg, true).RequestTracked?
    ensures Ledger.Create(s, Some(Decide(msg, true).url), random, now, o).1 != Ledger.UrlRequired
  {
  }

  /**
   The page-level variables: the text the current QR code encodes
   (`currentQRCode`), `currentShortCode` and `currentRedirectUrl`.
   */
  datatype Session = Session(qrText: Option<string>, shortCode: Option<string>, redirectUrl: Option<string>)

  const Initial: Session := Session(None, None, None)

  /**
   One run of `update_qrcode`. `reply` is the server's answer to a tracked
   request, None when the request itself failed. `renders` says whether
   `create_qrcode` encodes its text: it throws when the text does not fit
   the chosen version, and then `currentQRCode` keeps its old value. On the
   tracked path the code and redirect URL are stored before rendering, so a
   failed render leaves them set anyway; on the plain path the throw comes
   before the two variables are cleared. A blank message, a failed request
   or an error answer leave the variables as they were.
   */
  function Update(session: Session, msg: string, useTracking: bool, reply: Option<Ledger.CreateResponse>, renders: bool): (r: Session)
    ensures Decide(msg, useTracking).ShowPrompt? ==> r == session
    ensures Decide(msg, useTracking).RenderPlain? ==>
      r == if renders then Session(Some(Text.Trim(msg)), None, None) else session
    ensures Decide(msg, useTracking).RequestTracked? && reply.Some? && reply.value.Created? ==>
      && r.shortCode == Some(reply.value.shortCode)
      && r.redirectUrl == Some(reply.value.redirectUrl)
      && r.qrText == if renders then Some(reply.value.redirectUrl) else session.qrText
    ensures Decide(msg, useTracking).RequestTracked? && !(reply.Some? && reply.value.Created?) ==> r == session
  {
    match Decide(msg, useTracking)
    case ShowPrompt => session
    case RenderPlain(text) => if renders then Session(Some(text), None, None) else session
    case RequestTracked(_) =>
      if reply.Some? && reply.value.Created? then
        var qrText := if renders then Some(reply.value.redirectUrl) else session.qrText;
        Session(qrText, Some(reply.value.shortCode), Some(reply.value.redirectUrl))
      else session
  }

  /** `update_qrcode` against the server: the tracked path calls the create handler. */
  function Step(session: Session, s: Ledger.Store, msg: string, useTracking: bool, random: seq<Hex.byte>, now: nat, o: Ledger.Origin, renders: bool): (r: (Session, Ledger.Store))
    requires |random| == Hex.CodeBytes
    ensures !Decide(msg, useTracking).RequestTracked? ==> r.1 == s
    ensures Decide(msg, useTracking).RequestTracked? ==> r.1 == Ledger.Create(s, Some(Text.Trim(msg)), random, now, o).0
  {
    match Decide(msg, useTracking)
    case RequestTracked(url) =>
      var (s', reply) := Ledger.Create(s, Some(url), random, now, o);
      (Update(session, msg, useTracking, Some(reply), renders), s')
    case _ => (Update(session, msg, useTracking, None, renders), s)
  }

  /**
   `currentShortCode` and `currentRedirectUrl` are set together, and a set
   code is 8 hex characters whose redirect URL on the page's server is the
   stored one.
   */
  predicate CodeMatchesUrl(session: Session, o: Ledger.Origin) {
    && (session.shortCode.Some? <==> session.redirectUrl.Some?)
    && (session.shortCode.Some? ==>
          && session.redirectUrl == Some(Ledger.RedirectUrl(o, session.shortCode.value))
          && Hex.IsShortCode(session.shortCode.value))
  }

  /**
   Besides, whenever the page holds a short code, the current QR code encodes
   that code's redirect URL.
   */
  predicate Consistent(session: Session, o: Ledger.Origin) {
    && CodeMatchesUrl(session, o)
    && (session.shortCode.Some? ==> session.qrText == session.redirectUrl)
  }

  /**
   Every run keeps the short code and redirect URL in step; a run whose
   render succeeds also keeps the QR code in step with them.
   */
  lemma StepKeepsConsistent(session: Session, s: Ledger.Store, msg: string, useTracking: bool, random: seq<Hex.byte>, now: nat, o: Ledger.Origin, renders: bool)
    requires |random| == Hex.CodeBytes
    requires Consistent(session, o)
    ensures CodeMatchesUrl(Step(session, s, msg, useTracking, random, now, o, renders).0, o)
    ensures renders ==> Consistent(Step(session, s, msg, useTracking, random, now, o, renders).0, o)
  {
  }

  /**
   A tracked run whose render fails still takes the new code: the page then
   shows (and downloads) the previous QR code under the new code's name, and
   the new row exists on the server. Here the previous QR code is a plain one.
   */
  lemma RenderFailureLeavesStaleCode(s: Ledger.Store, msg: string, random: seq<Hex.byte>, now: nat, o: Ledger.Origin, size: nat, moduleCount: nat)
    requires |random| == Hex.CodeBytes && moduleCount > 0
    requires !Text.AllSpace(msg)
    requires Hex.GenerateShortCode(random) !in s.rows
    ensures var before := Session(Some("hello"), None, None);
      var (after, s') := Step(before, s, msg, true, random, now, o, false);
      && Consistent(before, o)
      && after.shortCode == Some(Hex.GenerateShortCode(random))
      && after.qrText == Some("hello")
      && !Consistent(after, o)
      && Hex.GenerateShortCode(random) in s'.rows
      && Download.ParsePngFileName(DownloadPng(after, size, moduleCount).value.1)
           == Some((Some(Hex.GenerateShortCode(random)), Download.CanvasGeometry(size, moduleCount).canvasSize))
  {
    var code := Hex.GenerateShortCode(random);
    assert |Ledger.RedirectUrl(o, code)| != |"hello"|;
    Download.PngFileNameRoundTrip(Some(code), Download.CanvasGeometry(size, moduleCount).canvasSize);
  }

  /**
   `update_qrcode` with the code committed only once the render succeeds:
   a failed render leaves all three variables as they were.
   */
  function CommittedStep(session: Session, s: Ledger.Store, msg: string, useTracking: bool, random: seq<Hex.byte>, now: nat, o: Ledger.Origin, renders: bool): (r: (Session, Ledger.Store))
    requires |random| == Hex.CodeBytes
    ensures !renders ==> r.0 == session
    ensures r.1 == Step(session, s, msg, useTracking, random, now, o, renders).1
  {
    var (session', s') := Step(session, s, msg, useTracking, random, now, o, renders);
    (if renders then session' else session, s')
  }

  /**
   With the commit moved after the render, every run keeps the page
   consistent, and runs whose render succeeds behave exactly as written.
   */
  lemma CommittedStepKeepsConsistent(session: Session, s: Ledger.Store, msg: string, useTracking: bool, random: seq<Hex.byte>, now: nat, o: Ledger.Origin, renders: bool)
    requires |random| == Hex.CodeBytes
    requires Consistent(session, o)
    ensures Consistent(CommittedStep(session, s, msg, useTracking, random, now, o, renders).0, o)
    ensures renders ==> CommittedStep(session, s, msg, useTracking, random, now, o, renders) == Step(session, s, msg, useTracking, random, now, o, renders)
  {
    StepKeepsConsistent(session, s, msg, useTracking, random, now, o, renders);
  }

  /**
   Generating a tracked QR code for a message stores the trimmed message, the
   page takes the new code, and scanning the code redirects to the message.
   The QR code shows the redirect URL when the render succeeds and is the
   previous one otherwise.
   */
  lemma TrackedStepRedirectsToMessage(session: Session, s: Ledger.Store, msg: string, random: seq<Hex.byte>, now: nat, o: Ledger.Origin, later: nat, renders: bool)
    requires |random| == Hex.CodeBytes
    requires !Text.AllSpace(msg)
    requires Hex.GenerateShortCode(random) !in s.rows
    ensures var (session', s') := Step(session, s, msg, true, random, now, o, renders);
      && session'.shortCode == Some(Hex.GenerateShortCode(random))
      && session'.redirectUrl == Some(Ledger.RedirectUrl(o, Hex.GenerateShortCode(random)))
      && session'.qrText == (if renders then Some(Ledger.RedirectUrl(o, Hex.GenerateShortCode(random))) else session.qrText)
      && Ledger.Resolve(s', session'.shortCode.value, later, false).1 == Ledger.RedirectTo(Text.Trim(msg))
  {
  }

  /**
   The PNG download (`downloadQR`): nothing without a current QR code,
   otherwise the canvas geometry for the requested size and a file name that
   reads back to the page's short code (when it is a well-formed one) and the
   canvas size.
   */
  function DownloadPng(session: Session, size: nat, moduleCount: nat): (r: Option<(Download.Geometry, string)>)
    requires moduleCount > 0
    ensures r.None? <==> session.qrText.None?
    ensures r.Some? ==> r.value.0 == Download.CanvasGeometry(size, moduleCount)
    ensures r.Some? ==> r.value.0.canvasSize <= size < r.value.0.canvasSize + moduleCount
    ensures r.Some? && (session.shortCode.Some? ==> Hex.IsShortCode(session.shortCode.value)) ==>
      Download.ParsePngFileName(r.value.1) == Some((session.shortCode, r.value.0.canvasSize))
  {
    if session.qrText.None? then None
    else
      var g := Download.CanvasGeometry(size, moduleCount);
      var name := Download.PngFileName(session.shortCode, g.canvasSize);
      assert (session.shortCode.Some? ==> Hex.IsShortCode(session.shortCode.value)) ==>
        Download.ParsePngFileName(name) == Some((session.shortCode, g.canvasSize)) by {
        if session.shortCode.Some? ==> Hex.IsShortCode(session.shortCode.value) {
          Download.PngFileNameRoundTrip(session.shortCode, g.canvasSize);
        }
      }
      Some((g, name))
  }

  /**
   The SVG download (`downloadSVG`): nothing without a current QR code,
   otherwise a file name that reads back to the short code the page treats
   as tracked.
   */
  function DownloadSvg(session: Session): (r: Option<string>)
    ensures r.None? <==> session.qrText.None?
    ensures r.Some? ==> Download.ParseSvgFileName(r.value) == Some(if Download.IsTracked(session.shortCode) then session.shortCode else None)
  {
    if session.qrText.None? then None
    else
      Download.SvgFileNameRoundTrip(session.shortCode);
      Some(Download.SvgFileName(session.shortCode))
  }

  /**
   After a tracked QR code is made, a PNG download is named after the new
   short code and the canvas size. It exists whenever there is a QR code to
   download: the new one, or the previous one if the render failed.
   */
  lemma TrackedDownloadName(session: Session, s: Ledger.Store, msg: string, random: seq<Hex.byte>, now: nat, o: Ledger.Origin, size: nat, moduleCount: nat, renders: bool)
    requires |random| == Hex.CodeBytes && moduleCount > 0
    requires !Text.AllSpace(msg)
    requires Hex.GenerateShortCode(random) !in s.rows
    ensures var session' := Step(session, s, msg, true, random, now, o, renders).0;
      var d := DownloadPng(session', size, moduleCount);
      && (d.Some? <==> renders || session.qrText.Some?)
      && (d.Some? ==> Download.ParsePngFileName(d.value.1) == Some((Some(Hex.GenerateShortCode(random)), d.value.0.canvasSize)))
  {
  }

  /**
   One dashboard row: code, link target, shown URL (as UTF-16 code units),
   scans, creation time, last scan (None shows "Never"), copy link. Times are
   the clock readings the server stored; their locale formatting is not
   modelled.
   */
  datatype DashboardRow = DashboardRow(shortCode: string, href: string, shownUrl: seq<Text.CodeUnit>, scans: nat, created: nat, lastScanned: Option<nat>, copyLink: string)

  datatype Dashboard =
    | NoCodesYet                            // "No tracked QR codes yet. Create one above!"
    | DashboardTable(rows: seq<DashboardRow>)

  /** `loadDashboard` on the list the server returned, the page served from `pageOrigin`. */
  function DashboardView(records: seq<Ledger.Record>, pageOrigin: string): (d: Dashboard)
    ensures d.NoCodesYet? <==> records == []
    ensures d.DashboardTable? ==> |d.rows| == |records|
    ensures d.DashboardTable? ==> forall i :: 0 <= i < |records| ==>
      && d.rows[i].shortCode == records[i].shortCode
      && d.rows[i].href == records[i].originalUrl
      && d.rows[i].shownUrl == Text.DisplayUrl(records[i].originalUrl)
      && |d.rows[i].shownUrl| <= Text.UrlDisplayLength + 3
      && d.rows[i].scans == records[i].scanCount
      && d.rows[i].created == records[i].createdAt
      && d.rows[i].lastScanned == records[i].lastScanned
  {
    if records == [] then NoCodesYet
    else DashboardTable(seq(|records|, i requires 0 <= i < |records| => DashboardRowOf(records[i], pageOrigin)))
  }

  function DashboardRowOf(r: Ledger.Record, pageOrigin: string): (row: DashboardRow)
    ensures |row.shownUrl| <= Text.UrlDisplayLength + 3
  {
    Text.DisplayUrlProperties(r.originalUrl);
    DashboardRow(r.shortCode, r.originalUrl, Text.DisplayUrl(r.originalUrl), r.scanCount, r.createdAt, r.lastScanned,
                 pageOrigin + "/r/" + r.shortCode)
  }

  /**
   When the page is served by the same server, the dashboard's copy link of a
   code is the redirect URL the create handler returned for it.
   */
  lemma DashboardLinkIsRedirectUrl(records: seq<Ledger.Record>, o: Ledger.Origin, i: nat)
    requires i < |records|
    ensures DashboardView(records, Ledger.BaseUrl(o)).rows[i].copyLink == Ledger.RedirectUrl(o, records[i].shortCode)
  {
  }
}
