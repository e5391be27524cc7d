/**
 * Fetching from EDGAR: the URL formats, the content-encoding dispatch of
 * the daily index and the skip/take window of entries whose forms are
 * fetched. Every network and library effect is a field of `Env`.
 */
module SecGov {
  import opened Wrappers
  import opened Numbers
  import opened Calendar
  import opened Models
  import opened AtomFilings
  import opened FilingDoc
  import opened Seqs

  type byte = x: int | 0 <= x < 256

  /** A response to the index request: its `Content-Encoding`, if readable, and its bytes. */
  datatype Response = Response(encoding: Option<string>, body: seq<byte>)

  /**
   * What the fetch helpers take from outside: an HTTP GET that yields the
   * body text, the index request (`None` when it fails), the two decoders,
   * minidom's parser, `extract_index_entries` (with the lossy UTF-8
   * decoding before it) and `get_quarter`.
   */
  datatype Env = Env(
    get: string -> Outcome<string>,
    send: string -> Option<Response>,
    gunzip: seq<byte> -> Outcome<seq<byte>>,
    inflate: seq<byte> -> Outcome<seq<byte>>,
    parseXml: string -> Option<Element>,
    extractIndex: seq<byte> -> seq<IndexEntry>,
    quarter: Date -> string)

  const BaseUrl := "https://www.sec.gov/Archives/"
  const DailyIndexUrl := "https://www.sec.gov/Archives/edgar/daily-index/"
  const IndexFile := "/master.20250213.idx"
  const DeadLetterPrefix := "Failed to proccess entry: "

  /** The URL `get_form` requests for an index entry. */
  function FormUrl(e: IndexEntry): string {
    BaseUrl + e.filepath
  }

  /** The document URL names the entry's path after the archive root, so distinct paths give distinct URLs. */
  lemma FormUrlPath(e: IndexEntry, e': IndexEntry)
    ensures FormUrl(e)[..|BaseUrl|] == BaseUrl && FormUrl(e)[|BaseUrl|..] == e.filepath
    ensures FormUrl(e) == FormUrl(e') ==> e.filepath == e'.filepath
  {
    assert FormUrl(e)[|BaseUrl|..] == e.filepath;
    assert FormUrl(e')[|BaseUrl|..] == e'.filepath;
  }

  /** `get_form`: fetch the entry's document and read its transactions. */
  function GetForm(e: IndexEntry, env: Env): (r: Outcome<seq<FilingTransaction>>)
    ensures env.get(FormUrl(e)).Err? ==> r == Err(env.get(FormUrl(e)).error)
    ensures env.get(FormUrl(e)).Panic? ==> r == Panic(env.get(FormUrl(e)).reason)
    ensures env.get(FormUrl(e)).Ok? ==> r == NewFilingDoc(FormUrl(e), env.get(FormUrl(e)).value, env.parseXml)
  {
    var url := FormUrl(e);
    var body :- env.get(url);
    NewFilingDoc(url, body, env.parseXml)
  }

  /** The line `save_failed` appends to `filings/failed.txt`. */
  function DeadLetterLine(path: string): string {
    DeadLetterPrefix + path
  }

  /** The URL of the daily index `get_daily_entries` requests for a date. */
  function IndexUrl(d: Date, quarter: Date -> string): (r: string)
    ensures |r| >= |DailyIndexUrl| + |IndexFile|
    ensures r[..|DailyIndexUrl|] == DailyIndexUrl
    ensures r[|DailyIndexUrl|..|r| - |IndexFile|] == IntToString(d.year) + "/" + quarter(d)
    ensures r[|r| - |IndexFile|..] == IndexFile
  {
    DailyIndexUrl + IntToString(d.year) + "/" + quarter(d) + IndexFile
  }

  /** The day and the month play no part in the index URL beyond choosing the quarter. */
  lemma IndexUrlIgnoresDay(d: Date, d': Date, quarter: Date -> string)
    requires d.year == d'.year && quarter(d) == quarter(d')
    ensures IndexUrl(d, quarter) == IndexUrl(d', quarter)
  {
  }

  /** `body_decoder`: gzip or deflate by the declared encoding, otherwise the body as it is. */
  function BodyDecoder(body: seq<byte>, encoding: Option<string>, env: Env): (r: Outcome<seq<byte>>)
    ensures encoding == Some("gzip") ==> r == env.gunzip(body)
    ensures encoding == Some("deflate") ==> r == env.inflate(body)
    ensures encoding != Some("gzip") && encoding != Some("deflate") ==> r == Ok(body)
  {
    match encoding
    case Some(name) =>
      if name == "gzip" then env.gunzip(body)
      else if name == "deflate" then env.inflate(body)
      else Ok(body)
    case None => Ok(body)
  }

  /**
   * `get_daily_entries`: a failed request panics on `unwrap`, a decoder
   * error is returned, and otherwise the entries read from the body.
   */
  function DailyEntries(d: Date, env: Env): (r: Outcome<seq<IndexEntry>>)
    ensures env.send(IndexUrl(d, env.quarter)).None? ==> r == Panic(UnwrapErr)
    ensures env.send(IndexUrl(d, env.quarter)).Some? ==>
              var resp := env.send(IndexUrl(d, env.quarter)).value;
              var data := BodyDecoder(resp.body, resp.encoding, env);
              (data.Err? ==> r == Err(data.error))
              && (data.Panic? ==> r == Panic(data.reason))
              && (data.Ok? ==> r == Ok(env.extractIndex(data.value)))
  {
    match env.send(IndexUrl(d, env.quarter))
    case None => Panic(UnwrapErr)
    case Some(resp) =>
      var data :- BodyDecoder(resp.body, resp.encoding, env);
      Ok(env.extractIndex(data))
  }

  // ----- process_entries -----

  /** `entries.iter().skip(skip).take(take)`. */
  function Window(entries: seq<IndexEntry>, skip: nat, take: nat): seq<IndexEntry> {
    var lo := Min(skip, |entries|);
    var hi := Min(skip + take, |entries|);
    entries[lo..hi]
  }

  function Min(a: int, b: int): int { if a <= b then a else b }

  /** The window holds the entries from `skip` on, in order, at most `take` of them. */
  lemma WindowEntries(entries: seq<IndexEntry>, skip: nat, take: nat)
    ensures var w := Window(entries, skip, take);
            |w| == (if skip >= |entries| then 0 else Min(take, |entries| - skip))
            && forall k :: 0 <= k < |w| ==> w[k] == entries[skip + k]
  {
  }

  /** Two adjacent windows make up the window that spans both. */
  lemma WindowsTile(entries: seq<IndexEntry>, skip: nat, t1: nat, t2: nat)
    ensures Window(entries, skip, t1) + Window(entries, skip + t1, t2) == Window(entries, skip, t1 + t2)
  {
  }

  /** What the task of each entry yields; `Run` passes a task that calls `GetForm`. */
  type Task = IndexEntry -> Outcome<seq<FilingTransaction>>

  /** The transactions of the entries whose task succeeds, in entry order. */
  function Fetched(es: seq<IndexEntry>, task: Task): seq<FilingTransaction> {
    if es == [] then []
    else Fetched(es[..|es| - 1], task) + Gathered(task(es[|es| - 1]))
  }

  /** The dead letters of the entries whose task returns an error, in entry order. */
  function DeadLetters(es: seq<IndexEntry>, task: Task): seq<string> {
    if es == [] then []
    else DeadLetters(es[..|es| - 1], task) + Letter(es[|es| - 1], task(es[|es| - 1]))
  }

  /** The entries whose task fails with an error, in order. */
  function Failing(es: seq<IndexEntry>, task: Task): (r: seq<IndexEntry>)
    ensures |r| <= |es|
    ensures forall e :: e in r ==> e in es && task(e).Err?
  {
    if es == [] then []
    else Failing(es[..|es| - 1], task) + (if task(es[|es| - 1]).Err? then [es[|es| - 1]] else [])
  }

  /**
   * One dead letter per failing entry, naming it; an entry whose task
   * panics leaves no line.
   */
  lemma {:induction false} DeadLettersName(es: seq<IndexEntry>, task: Task)
    ensures |DeadLetters(es, task)| == |Failing(es, task)|
    ensures forall k :: 0 <= k < |Failing(es, task)| ==>
              DeadLetters(es, task)[k] == DeadLetterLine(Failing(es, task)[k].filepath)
  {
    if es != [] {
      DeadLettersName(es[..|es| - 1], task);
    }
  }

  /** The transactions one task contributes. */
  function Gathered(o: Outcome<seq<FilingTransaction>>): seq<FilingTransaction> {
    if o.Ok? then o.value else []
  }

  /** The dead letter one task contributes. */
  function Letter(e: IndexEntry, o: Outcome<seq<FilingTransaction>>): seq<string> {
    if o.Err? then [DeadLetterLine(e.filepath)] else []
  }

  /** One more entry adds what its own task contributes. */
  lemma FetchedStep(es: seq<IndexEntry>, e: IndexEntry, task: Task)
    ensures Fetched(es + [e], task) == Fetched(es, task) + Gathered(task(e))
    ensures DeadLetters(es + [e], task) == DeadLetters(es, task) + Letter(e, task(e))
  {
    assert (es + [e])[..|es|] == es;
  }

  /** Fetching two runs of entries one after the other is fetching their concatenation. */
  lemma FetchedAppend(a: seq<IndexEntry>, b: seq<IndexEntry>, task: Task)
    ensures Fetched(a + b, task) == Fetched(a, task) + Fetched(b, task)
    ensures DeadLetters(a + b, task) == DeadLetters(a, task) + DeadLetters(b, task)
  {
    FetchedConcat(a, b, task);
    DeadLettersConcat(a, b, task);
  }

  lemma {:induction false} FetchedConcat(a: seq<IndexEntry>, b: seq<IndexEntry>, task: Task)
    ensures Fetched(a + b, task) == Fetched(a, task) + Fetched(b, task)
    decreases |b|
  {
    if b == [] {
      assert a + b == a;
      assert Fetched(a, task) + [] == Fetched(a, task);
    } else {
      var b', e := b[..|b| - 1], b[|b| - 1];
      assert b == b' + [e];
      assert a + b == (a + b') + [e];
      FetchedConcat(a, b', task);
      FetchedStep(a + b', e, task);
      FetchedStep(b', e, task);
      Regroup(Fetched(a, task), Fetched(b', task), Gathered(task(e)));
    }
  }

  lemma {:induction false} DeadLettersConcat(a: seq<IndexEntry>, b: seq<IndexEntry>, task: Task)
    ensures DeadLetters(a + b, task) == DeadLetters(a, task) + DeadLetters(b, task)
    decreases |b|
  {
    if b == [] {
      assert a + b == a;
      assert DeadLetters(a, task) + [] == DeadLetters(a, task);
    } else {
      var b', e := b[..|b| - 1], b[|b| - 1];
      assert b == b' + [e];
      assert a + b == (a + b') + [e];
      DeadLettersConcat(a, b', task);
      FetchedStep(a + b', e, task);
      FetchedStep(b', e, task);
      Regroup(DeadLetters(a, task), DeadLetters(b', task), Letter(e, task(e)));
    }
  }


  /** One entry of the window adds what its task contributes to both logs. */
  lemma EntryStep(w: seq<IndexEntry>, i: nat, task: Task,
                  fb: seq<FilingTransaction>, f0: seq<FilingTransaction>, f1: seq<FilingTransaction>,
                  db: seq<string>, d0: seq<string>, d1: seq<string>)
    requires i < |w|
    requires f0 == fb + Fetched(w[..i], task) && f1 == f0 + Gathered(task(w[i]))
    requires d0 == db + DeadLetters(w[..i], task) && d1 == d0 + Letter(w[i], task(w[i]))
    ensures f1 == fb + Fetched(w[..i + 1], task)
    ensures d1 == db + DeadLetters(w[..i + 1], task)
  {
    assert w[..i + 1] == w[..i] + [w[i]];
    FetchedStep(w[..i], w[i], task);
    Regroup(fb, Fetched(w[..i], task), Gathered(task(w[i])));
    Regroup(db, DeadLetters(w[..i], task), Letter(w[i], task(w[i])));
  }

  /** The transactions gathered by the tasks of one run. */
  class FilingBuffer {
    var filings: seq<FilingTransaction>

    constructor ()
      ensures filings == []
    {
      filings := [];
    }
  }

  /**
   * The files the miner keeps: checkpoints by path (`None` for a file that
   * does not deserialise) and the lines of `filings/failed.txt`.
   */
  class Disk {
    var files: map<string, Option<seq<FilingTransaction>>>
    var failed: seq<string>

    constructor (files: map<string, Option<seq<FilingTransaction>>>, failed: seq<string>)
      ensures this.files == files && this.failed == failed
    {
      this.files := files;
      this.failed := failed;
    }
  }

  /**
   * `process_entries`: each entry of the window is fetched; its
   * transactions are appended to the buffer, an error appends a dead letter,
   * and a panic drops the entry. It always succeeds.
   */
  method ProcessEntries(entries: seq<IndexEntry>, buffer: FilingBuffer, disk: Disk,
                        skip: nat, take: nat, task: Task) returns (r: Outcome<()>)
    modifies buffer, disk
    ensures r == Ok(())
    ensures buffer.filings == old(buffer.filings) + Fetched(Window(entries, skip, take), task)
    ensures disk.failed == old(disk.failed) + DeadLetters(Window(entries, skip, take), task)
    ensures disk.files == old(disk.files)
  {
    var w := Window(entries, skip, take);
    var i := 0;
    assert w[..0] == [];
    while i < |w|
      invariant 0 <= i <= |w|
      invariant buffer.filings == old(buffer.filings) + Fetched(w[..i], task)
      invariant disk.failed == old(disk.failed) + DeadLetters(w[..i], task)
      invariant disk.files == old(disk.files)
    {
      var entry := w[i];
      ghost var f0, d0 := buffer.filings, disk.failed;
      match task(entry) {
        case Ok(filings) =>
          buffer.filings := buffer.filings + filings;
        case Err(_) =>
          disk.failed := disk.failed + [DeadLetterLine(entry.filepath)];
        case Panic(_) =>
      }
      assert buffer.filings == f0 + Gathered(task(entry));
      assert disk.failed == d0 + Letter(entry, task(entry));
      EntryStep(w, i, task, old(buffer.filings), f0, buffer.filings, old(disk.failed), d0, disk.failed);
      i := i + 1;
    }
    assert w[..i] == w;
    return Ok(());
  }
}
