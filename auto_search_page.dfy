/**
 * The result side of the automatic SA search page: the results table the
 * worker's queue events update, the start of a search, and the
 * semicolon-separated export with every field in double quotes.
 */
module AutoSearchPage {
  import opened Wrappers
  import opened Can
  import opened Text
  import opened AutoSearch

  /** One row of `_results`: the SA, its description, its status and the responses shown. */
  datatype Entry = Entry(sa: string, desc: string, status: string, responses: seq<string>)

  /** The page state the queue events change: the rows, the status line, whether a search is running. */
  datatype Display = Display(results: seq<Entry>, statusText: string, running: bool)

  /** The rows `_populate_tree` creates: one "Bereit" row with no responses per catalogue entry, in order. */
  function Initial(entries: seq<(string, string)>): (rs: seq<Entry>)
    ensures |rs| == |entries|
    ensures forall i :: 0 <= i < |rs| ==> rs[i] == Entry(entries[i].0, entries[i].1, "Bereit", [])
  {
    if entries == [] then []
    else Initial(entries[..|entries| - 1]) + [Entry(entries[|entries| - 1].0, entries[|entries| - 1].1, "Bereit", [])]
  }

  /**
   * `_update_result(idx, status, responses)`: an index outside the table
   * changes nothing; otherwise only that row's status and responses change.
   */
  function Updated(rs: seq<Entry>, idx: int, status: string, responses: seq<string>): (r: seq<Entry>)
    ensures |r| == |rs|
    ensures forall i :: 0 <= i < |rs| && i != idx ==> r[i] == rs[i]
    ensures 0 <= idx < |rs| ==> r[idx].sa == rs[idx].sa && r[idx].desc == rs[idx].desc
    ensures 0 <= idx < |rs| ==> r[idx].status == status && r[idx].responses == responses
  {
    if 0 <= idx < |rs| then rs[idx := rs[idx].(status := status, responses := responses)] else rs
  }

  /** `_process_queue`'s handling of one event. */
  function Handle(v: Display, ev: Event): Display {
    match ev
    case Status(text) => v.(statusText := text)
    case ItemResult(idx, status, responses) => v.(results := Updated(v.results, idx, status, responses))
    case ItemError(idx, message) => v.(results := Updated(v.results, idx, "Fehler", [message]))
    case BusError => v.(statusText := "Fehler – Details siehe Meldung")
    case Done(completed) => v.(statusText := if completed then "Suche abgeschlossen." else "Beendet.", running := false)
  }

  /** The events handled in queue order. */
  function HandleAll(v: Display, evs: seq<Event>): Display {
    if evs == [] then v else Handle(HandleAll(v, evs[..|evs| - 1]), evs[|evs| - 1])
  }

  /** Handling two batches of events is handling them one after the other. */
  lemma {:induction false} HandleAllAppend(v: Display, a: seq<Event>, b: seq<Event>)
    ensures HandleAll(v, a + b) == HandleAll(HandleAll(v, a), b)
    decreases |b|
  {
    if b == [] {
      assert a + b == a;
    } else {
      assert (a + b)[..|a + b| - 1] == a + b[..|b| - 1];
      HandleAllAppend(v, a, b[..|b| - 1]);
    }
  }

  // ----- the page object -----

  /** Why `_start_search` did not start: a field `_parse_int` rejects, a timeout `float` rejects, or a timeout not above 0. */
  datatype StartError = BadField(err: ParseError) | BadTimeout | TimeoutNotPositive

  /** The search parameters `_start_search` hands to the worker. */
  datatype Params = Params(txId: int, rxId: int, eaReq: int, eaRsp: int, timeoutMs: int)

  /**
   * The fields of `_start_search` read in order, the first failure reported;
   * the timeout is given in milliseconds, None where `float` raises.
   */
  function StartParams(tx: string, rx: string, req: string, rsp: string, timeoutMs: Option<int>): Result<Params, StartError> {
    match ParseInt(tx, "TX-ID")
    case Failure(err) => Failure(BadField(err))
    case Success(txId) =>
      match ParseInt(rx, "RX-ID")
      case Failure(err) => Failure(BadField(err))
      case Success(rxId) =>
        match ParseInt(req, "EA Anfrage")
        case Failure(err) => Failure(BadField(err))
        case Success(eaReq) =>
          match ParseInt(rsp, "EA Antwort")
          case Failure(err) => Failure(BadField(err))
          case Success(eaRsp) =>
            match timeoutMs
            case None => Failure(BadTimeout)
            case Some(t) => if t <= 0 then Failure(TimeoutNotPositive) else Success(Params(txId, rxId, eaReq, eaRsp, t))
  }

  /** A search starts exactly when all four ids parse and the timeout is positive; it then carries those values. */
  lemma StartParamsSpec(tx: string, rx: string, req: string, rsp: string, timeoutMs: Option<int>)
    ensures StartParams(tx, rx, req, rsp, timeoutMs).Success? <==>
      && ParseInt(tx, "TX-ID").Success? && ParseInt(rx, "RX-ID").Success?
      && ParseInt(req, "EA Anfrage").Success? && ParseInt(rsp, "EA Antwort").Success?
      && timeoutMs.Some? && timeoutMs.value > 0
    ensures StartParams(tx, rx, req, rsp, timeoutMs).Success? ==>
      StartParams(tx, rx, req, rsp, timeoutMs).value
        == Params(ParseInt(tx, "TX-ID").value, ParseInt(rx, "RX-ID").value,
                  ParseInt(req, "EA Anfrage").value, ParseInt(rsp, "EA Antwort").value, timeoutMs.value)
    ensures ParseInt(tx, "TX-ID").Failure? ==> StartParams(tx, rx, req, rsp, timeoutMs) == Failure(BadField(ParseInt(tx, "TX-ID").error))
  {
  }

  /** What `_start_search` did. */
  datatype Start = AlreadyRunning | Rejected(error: StartError) | Started(params: Params)

  /** `AutoSearchPage`: the rows of `_results`, the status line and whether the worker runs. */
  class Page {
    var results: seq<Entry>
    var statusText: string
    var running: bool

    function Shown(): Display
      reads this
    {
      Display(results, statusText, running)
    }

    /** `__init__`: the table populated, status "Bereit", no worker. */
    constructor()
      ensures results == Initial(SA_ENTRIES) && statusText == "Bereit" && !running
    {
      statusText := "Bereit";
      running := false;
      results := Initial(SA_ENTRIES);
    }

    /** `_populate_tree`: one "Bereit" row per catalogue entry, in order. */
    method Populate()
      modifies this
      ensures results == Initial(SA_ENTRIES)
      ensures statusText == old(statusText) && running == old(running)
    {
      results := [];
      var i := 0;
      while i < |SA_ENTRIES|
        invariant i <= |SA_ENTRIES|
        invariant results == Initial(SA_ENTRIES[..i])
        invariant statusText == old(statusText) && running == old(running)
      {
        assert SA_ENTRIES[..i + 1][..i] == SA_ENTRIES[..i];
        results := results + [Entry(SA_ENTRIES[i].0, SA_ENTRIES[i].1, "Bereit", [])];
        i := i + 1;
      }
      assert SA_ENTRIES[..i] == SA_ENTRIES;
    }

    /** `_update_result`. */
    method UpdateResult(idx: int, status: string, responses: seq<string>)
      modifies this
      ensures results == Updated(old(results), idx, status, responses)
      ensures statusText == old(statusText) && running == old(running)
    {
      if 0 <= idx < |results| {
        results := results[idx := results[idx].(status := status, responses := responses)];
      }
    }

    /** `_process_queue`: every queued event handled in order. */
    method ProcessQueue(events: seq<Event>)
      modifies this
      ensures Shown() == HandleAll(old(Shown()), events)
    {
      var i := 0;
      while i < |events|
        invariant i <= |events|
        invariant Shown() == HandleAll(old(Shown()), events[..i])
      {
        assert events[..i + 1][..i] == events[..i];
        match events[i] {
          case Status(text) =>
            statusText := text;
          case ItemResult(idx, status, responses) =>
            UpdateResult(idx, status, responses);
          case ItemError(idx, message) =>
            UpdateResult(idx, "Fehler", [message]);
          case BusError =>
            statusText := "Fehler – Details siehe Meldung";
          case Done(completed) =>
            statusText := if completed then "Suche abgeschlossen." else "Beendet.";
            running := false;
        }
        i := i + 1;
      }
      assert events[..i] == events;
    }

    /**
     * `_start_search`: refused while a search runs or when a field is bad;
     * otherwise the table is repopulated and the page marked running.
     */
    method StartSearch(tx: string, rx: string, req: string, rsp: string, timeoutMs: Option<int>) returns (r: Start)
      modifies this
      ensures old(running) ==> r == AlreadyRunning && unchanged(this)
      ensures !old(running) && StartParams(tx, rx, req, rsp, timeoutMs).Failure? ==>
        r == Rejected(StartParams(tx, rx, req, rsp, timeoutMs).error) && unchanged(this)
      ensures !old(running) && StartParams(tx, rx, req, rsp, timeoutMs).Success? ==>
        && r == Started(StartParams(tx, rx, req, rsp, timeoutMs).value)
        && Shown() == Display(Initial(SA_ENTRIES), "Suche gestartet …", true)
    {
      if running {
        return AlreadyRunning;
      }
      var p := StartParams(tx, rx, req, rsp, timeoutMs);
      if p.Failure? {
        return Rejected(p.error);
      }
      Populate();
      running := true;
      statusText := "Suche gestartet …";
      r := Started(p.value);
    }
  }

  // ----- what a search leaves in the table -----

  /**
   * A row once its SA was searched: code and description kept; an invalid
   * code shows "Fehler" with "Ungültige SA"; a valid one shows "Antwort"
   * with at least one response, or "Timeout" with none.
   */
  ghost predicate Reported(row: Entry, entry: (string, string)) {
    && row.sa == entry.0 && row.desc == entry.1
    && (ParseInt(entry.0, "SA").Failure? ==> row.status == "Fehler" && row.responses == [INVALID_SA])
    && (ParseInt(entry.0, "SA").Success? ==>
          (row.status == "Antwort" && row.responses != []) || (row.status == "Timeout" && row.responses == []))
  }

  /** The first `n` entries searched, the others still as populated, and the running flag as at `v0`. */
  ghost predicate SearchedUpTo(entries: seq<(string, string)>, n: nat, v0: Display, v: Display) {
    && n <= |entries| && |v.results| == |entries|
    && (forall i :: 0 <= i < n ==> Reported(v.results[i], entries[i]))
    && (forall i :: n <= i < |entries| ==> v.results[i] == Initial(entries)[i])
    && v.running == v0.running
  }

  lemma HandleTwo(v: Display, a: Event, b: Event)
    ensures HandleAll(v, [a, b]) == Handle(Handle(v, a), b)
  {
    assert [a, b][..1] == [a];
    assert [a][..0] == [];
    assert HandleAll(v, [a]) == Handle(HandleAll(v, []), a);
  }

  /** The queue event that reports entry `k` as `Reported` requires. */
  predicate ReportsEntry(b: Event, k: nat, entry: (string, string)) {
    match b
    case ItemError(i, m) => i == k && m == INVALID_SA && ParseInt(entry.0, "SA").Failure?
    case ItemResult(i, st, rs) =>
      && i == k && ParseInt(entry.0, "SA").Success?
      && ((st == "Antwort" && rs != []) || (st == "Timeout" && rs == []))
    case _ => false
  }

  /** Announcing entry `k` and then reporting it searches one entry more. */
  lemma AfterReport(entries: seq<(string, string)>, k: nat, v0: Display, events: seq<Event>, text: string, b: Event)
    requires k < |entries| && SearchedUpTo(entries, k, v0, HandleAll(v0, events)) && ReportsEntry(b, k, entries[k])
    ensures SearchedUpTo(entries, k + 1, v0, HandleAll(v0, events + [Status(text), b]))
  {
    HandleAllAppend(v0, events, [Status(text), b]);
    HandleTwo(HandleAll(v0, events), Status(text), b);
  }

  /** One pass of the SA loop either stops before touching anything or searches entry `k` and sends at most its request. */
  lemma ProbeStep(e: Env, entries: seq<(string, string)>, k: nat, s: Sweep, v0: Display)
    requires k < |entries| && s.pos <= |e.polls| && !s.stopped
    requires SearchedUpTo(entries, k, v0, HandleAll(v0, s.events)) && s.sent == Requests(e, entries[..k])
    ensures var r := Probe(e, entries, k, s);
      || (r.stopped && r.events == s.events && r.sent == s.sent)
      || (SearchedUpTo(entries, k + 1, v0, HandleAll(v0, r.events)) && r.sent == Requests(e, entries[..k + 1]))
    ensures e.cancel == Never ==> var r := Probe(e, entries, k, s);
      !r.stopped && SearchedUpTo(entries, k + 1, v0, HandleAll(v0, r.events)) && r.sent == Requests(e, entries[..k + 1])
  {
    if !e.cancel.IsSet(s.checks) {
      var sa := entries[k].0;
      var r := Probe(e, entries, k, s);
      assert entries[..k + 1][..k] == entries[..k];
      match ParseInt(sa, "SA")
      case Failure(_) =>
        var b := ItemError(k, INVALID_SA);
        assert r.events == s.events + [Status(Checking(sa)), b];
        AfterReport(entries, k, v0, s.events, Checking(sa), b);
      case Success(did) =>
        var w := Collect(e, s.pos, Listening(s.pos, s.checks + 1, []));
        var b := ItemResult(k, StatusText(w.got), ResponseTexts(w.got));
        assert r.events == s.events + [Status(Checking(sa)), b];
        AfterReport(entries, k, v0, s.events, Checking(sa), b);
    }
  }

  /** The SA loop from entry `k` on: it searches some further entries in order and leaves the rest untouched. */
  lemma {:induction false} SweepTable(e: Env, entries: seq<(string, string)>, k: nat, s: Sweep, v0: Display) returns (n: nat)
    requires k <= |entries| && s.pos <= |e.polls|
    requires SearchedUpTo(entries, k, v0, HandleAll(v0, s.events)) && s.sent == Requests(e, entries[..k])
    ensures var r := Sweeping(e, entries, k, s);
      && k <= n && SearchedUpTo(entries, n, v0, HandleAll(v0, r.events)) && r.sent == Requests(e, entries[..n])
      && (e.cancel == Never && !s.stopped ==> n == |entries|)
    decreases |entries| - k
  {
    if k == |entries| || s.stopped {
      n := k;
    } else {
      ProbeStep(e, entries, k, s, v0);
      var s1 := Probe(e, entries, k, s);
      if s1.stopped && s1.events == s.events && s1.sent == s.sent {
        n := k;
      } else {
        n := SweepTable(e, entries, k + 1, s1, v0);
      }
    }
  }

  /**
   * A search on a freshly populated table: the SAs searched form a prefix of
   * the catalogue, each reported, the others still "Bereit"; one request
   * went out per valid code among them; the page is no longer running.
   * Without a stop request every SA is searched and the search reads as
   * completed; a bus that does not open changes no row and sends nothing.
   */
  lemma SearchOutcome(e: Env, entries: seq<(string, string)>, busOpened: bool, v0: Display) returns (n: nat)
    requires v0.results == Initial(entries)
    ensures var (events, sent) := Run(e, entries, busOpened); var v := HandleAll(v0, events);
      && n <= |entries| && |v.results| == |entries|
      && (forall i :: 0 <= i < n ==> Reported(v.results[i], entries[i]))
      && (forall i :: n <= i < |entries| ==> v.results[i] == Entry(entries[i].0, entries[i].1, "Bereit", []))
      && sent == Requests(e, entries[..n])
      && !v.running
      && (v.statusText == "Suche abgeschlossen." || v.statusText == "Beendet.")
      && (busOpened && e.cancel == Never ==> n == |entries| && v.statusText == "Suche abgeschlossen.")
      && (!busOpened ==> n == 0 && sent == [] && v.statusText == "Beendet.")
  {
    assert entries[..0] == [];
    if !busOpened {
      n := 0;
      HandleTwo(v0, BusError, Done(false));
    } else {
      var s := Sweeping(e, entries, 0, SWEEP_START);
      n := SweepTable(e, entries, 0, SWEEP_START, v0);
      var d := Done(!e.cancel.IsSet(s.checks));
      assert (s.events + [d])[..|s.events|] == s.events;
      if e.cancel == Never {
        assert entries[..n] == entries;
      }
    }
  }

  // ----- _save_results -----

  /** `str.replace('"', '""')`. */
  function Escape(s: string): (r: string)
    ensures |r| >= |s|
  {
    if s == [] then [] else (if s[0] == '"' then "\"\"" else [s[0]]) + Escape(s[1..])
  }

  /** A field as written: in double quotes, embedded quotes doubled. */
  function Quote(s: string): string {
    "\"" + Escape(s) + "\""
  }

  /** A line of quoted fields joined by ';'. */
  function Record(fields: seq<string>): string
    requires |fields| > 0
  {
    if |fields| == 1 then Quote(fields[0]) + "\n" else Quote(fields[0]) + ";" + Record(fields[1..])
  }

  /** The four columns of a row; the responses joined by " | ". */
  function Fields(row: Entry): (fs: seq<string>)
    ensures |fs| == 4
  {
    [row.sa, row.desc, row.status, Join(row.responses, " | ")]
  }

  function Lines(rows: seq<Entry>): string {
    if rows == [] then [] else Record(Fields(rows[0])) + Lines(rows[1..])
  }

  const HEADER: string := "SA;Bezeichnung;Status;Antwort\n"

  /** The file `_save_results` writes, or None when there are no results (nothing is written). */
  function SaveText(rows: seq<Entry>): Option<string> {
    if rows == [] then None else Some(HEADER + Lines(rows))
  }

  // A reader for the quoted format, the partner the export is checked against.

  /** The rest of a quoted field after its opening quote: the value and what follows the closing quote. */
  function ReadQuoted(t: string): (r: Option<(string, string)>)
    ensures r.Some? ==> |r.value.1| < |t|
    decreases |t|
  {
    if t == [] then None
    else if t[0] == '"' then
      if |t| >= 2 && t[1] == '"' then
        match ReadQuoted(t[2..])
        case None => None
        case Some(p) => Some(("\"" + p.0, p.1))
      else Some(([], t[1..]))
    else
      match ReadQuoted(t[1..])
      case None => None
      case Some(p) => Some(([t[0]] + p.0, p.1))
  }

  function ReadField(t: string): (r: Option<(string, string)>)
    ensures r.Some? ==> |r.value.1| < |t|
  {
    if t != [] && t[0] == '"' then ReadQuoted(t[1..]) else None
  }

  /** One line of quoted fields separated by ';', up to and including its newline. */
  function ReadRecord(t: string): (r: Option<(seq<string>, string)>)
    ensures r.Some? ==> |r.value.1| < |t|
    decreases |t|
  {
    match ReadField(t)
    case None => None
    case Some(p) =>
      var rest := p.1;
      if rest != [] && rest[0] == ';' then
        match ReadRecord(rest[1..])
        case None => None
        case Some(q) => Some(([p.0] + q.0, q.1))
      else if rest != [] && rest[0] == '\n' then Some(([p.0], rest[1..]))
      else None
  }

  function ReadRecords(t: string): Option<seq<seq<string>>>
    decreases |t|
  {
    if t == [] then Some([])
    else
      match ReadRecord(t)
      case None => None
      case Some(p) =>
        match ReadRecords(p.1)
        case None => None
        case Some(rs) => Some([p.0] + rs)
  }

  /** A doubled quote reads as one quote, and the first single quote closes the field. */
  lemma {:induction false} ReadEscaped(s: string, rest: string)
    requires rest == [] || rest[0] != '"'
    ensures ReadQuoted(Escape(s) + "\"" + rest) == Some((s, rest))
    decreases |s|
  {
    var t := Escape(s) + "\"" + rest;
    if s == [] {
      assert t == "\"" + rest;
      assert t[1..] == rest;
    } else {
      ReadEscaped(s[1..], rest);
      var u := Escape(s[1..]) + "\"" + rest;
      if s[0] == '"' {
        assert t == "\"\"" + u;
        assert t[2..] == u;
      } else {
        assert t == [s[0]] + u;
        assert t[1..] == u;
      }
      assert [s[0]] + s[1..] == s;
    }
  }

  /** Every quoted field reads back as written, whatever it contains. */
  lemma QuoteRoundTrip(s: string, rest: string)
    requires rest == [] || rest[0] != '"'
    ensures ReadField(Quote(s) + rest) == Some((s, rest))
  {
    ReadEscaped(s, rest);
    assert (Quote(s) + rest)[1..] == Escape(s) + "\"" + rest;
  }

  /** A written line reads back as its fields, leaving what follows it. */
  lemma {:induction false} RecordRoundTrip(fields: seq<string>, more: string)
    requires |fields| > 0
    ensures ReadRecord(Record(fields) + more) == Some((fields, more))
    decreases |fields|
  {
    var t := Record(fields) + more;
    if |fields| == 1 {
      assert t == Quote(fields[0]) + ("\n" + more);
      QuoteRoundTrip(fields[0], "\n" + more);
      assert ("\n" + more)[1..] == more;
      assert fields == [fields[0]];
    } else {
      var tail := Record(fields[1..]) + more;
      assert t == Quote(fields[0]) + (";" + tail);
      QuoteRoundTrip(fields[0], ";" + tail);
      assert (";" + tail)[1..] == tail;
      RecordRoundTrip(fields[1..], more);
      assert [fields[0]] + fields[1..] == fields;
    }
  }

  /** The lines of the export read back as the columns of every row, in order. */
  lemma {:induction false} LinesRoundTrip(rows: seq<Entry>)
    ensures ReadRecords(Lines(rows)) == Some(seq(|rows|, i requires 0 <= i < |rows| => Fields(rows[i])))
    decreases |rows|
  {
    var want := seq(|rows|, i requires 0 <= i < |rows| => Fields(rows[i]));
    if rows != [] {
      var tail := Lines(rows[1..]);
      RecordRoundTrip(Fields(rows[0]), tail);
      LinesRoundTrip(rows[1..]);
      assert Record(Fields(rows[0])) != [];
      assert want == [Fields(rows[0])] + seq(|rows| - 1, i requires 0 <= i < |rows| - 1 => Fields(rows[1..][i]));
    }
  }

  /** The export exists iff there are rows; after the header it holds exactly the rows' columns. */
  lemma SaveRoundTrip(rows: seq<Entry>)
    ensures SaveText(rows).Some? <==> rows != []
    ensures SaveText(rows).Some? ==>
      && SaveText(rows).value[..|HEADER|] == HEADER
      && ReadRecords(SaveText(rows).value[|HEADER|..]) == Some(seq(|rows|, i requires 0 <= i < |rows| => Fields(rows[i])))
  {
    if rows != [] {
      var t := HEADER + Lines(rows);
      assert t[|HEADER|..] == Lines(rows);
      LinesRoundTrip(rows);
    }
  }
}
