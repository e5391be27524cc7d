/**
 * The crawl cursor: one call of `run` mines the day `mine_date` — from a
 * checkpoint file if one was saved, otherwise from the daily index fetched
 * in sub-batches — saves what it found, and moves on to the next day.
 */
module Miner {
  import opened Wrappers
  import opened Numbers
  import opened Calendar
  import opened Models
  import opened Database
  import opened SecGov
  import opened Seqs

  const BatchLimit := "Due to SEC limits, batch per second must be <= 10"
  const DivideByZero := "attempt to divide by zero"

  /** `save_dir`: `filings/{year}/{month}`, the month with two digits. */
  function SaveDir(d: Date): string
    requires Valid(d)
  {
    "filings/" + IntToString(d.year) + "/" + TwoDigits(d.month)
  }

  /** `file_path`: the checkpoint of a day, `{save_dir}/{%Y%m%d}-filing.json`. */
  function FilePathOf(d: Date): string
    requires Valid(d)
  {
    SaveDir(d) + "/" + FlatText(d) + "-filing.json"
  }

  /** `%Y%m%d` tells the dates of years 0 to 9999 apart. */
  lemma FlatTextInjective(d: Date, e: Date)
    requires Valid(d) && Valid(e) && 0 <= d.year <= 9999 && 0 <= e.year <= 9999
    requires FlatText(d) == FlatText(e)
    ensures d == e
  {
    FlatTextFields(d);
    FlatTextFields(e);
  }

  lemma FlatTextFields(d: Date)
    requires Valid(d) && 0 <= d.year <= 9999
    ensures |FlatText(d)| == 8
    ensures AllDigits(FlatText(d)[..4]) && DigitsValue(FlatText(d)[..4]) == d.year
    ensures AllDigits(FlatText(d)[4..6]) && DigitsValue(FlatText(d)[4..6]) == d.month
    ensures AllDigits(FlatText(d)[6..]) && DigitsValue(FlatText(d)[6..]) == d.day
  {
    var y, m, dd := YearText(d.year), TwoDigits(d.month), TwoDigits(d.day);
    var s := FlatText(d);
    assert s == y + m + dd;
    assert s[..4] == y;
    assert s[4..6] == m;
    assert s[6..] == dd;
  }

  /** The last 20 characters of a checkpoint path: the `%Y%m%d` stem and the suffix. */
  lemma FilePathTail(d: Date)
    requires Valid(d) && 0 <= d.year <= 9999
    ensures var p := FilePathOf(d);
            |p| >= 20 && p[|p| - 20..|p| - 12] == FlatText(d) && p[|p| - 12..] == "-filing.json"
  {
    FlatTextFields(d);
    var p := FilePathOf(d);
    assert p == (SaveDir(d) + "/") + FlatText(d) + "-filing.json";
  }

  /**
   * Distinct days of years 0 to 9999 have distinct checkpoint files, and a
   * day's file lies in the directory of its year and month.
   */
  lemma FilePathsDistinct(d: Date, e: Date)
    requires Valid(d) && Valid(e) && 0 <= d.year <= 9999 && 0 <= e.year <= 9999
    ensures FilePathOf(d) == FilePathOf(e) <==> d == e
    ensures FilePathOf(d)[..|SaveDir(d)| + 1] == SaveDir(d) + "/"
  {
    if FilePathOf(d) == FilePathOf(e) {
      FilePathTail(d);
      FilePathTail(e);
      FlatTextInjective(d, e);
    }
  }

  /** The progress lines `save_filings_db` prints. */
  function FailedLine(progress: nat, total: nat): string {
    "failed insert " + NatToString(progress) + "/" + NatToString(total)
  }

  function InsertedLine(progress: nat, total: nat): string {
    "insert " + NatToString(progress) + "/" + NatToString(total)
  }

  /** Both parties of `t` already have a row in `tab`. */
  predicate Resolves(tab: Tables, t: FilingTransaction) {
    StoredIssuer(tab, t.company_cik).Some? && StoredIndividual(tab, t.owner_cik).Some?
  }

  /**
   * The store after one transaction of `save_filings_db`: the issuer and
   * the individual are created; only when both were already stored is the
   * form created, and only when the form was already stored is the
   * transaction inserted.
   */
  function SaveOne(tab: Tables, t: FilingTransaction, codes: Relationship -> i32): (r: Tables)
    ensures Extends(tab, r)
    ensures Resolves(r, t)
    ensures !Resolves(tab, t) ==> r.forms == tab.forms && r.transactions == tab.transactions
    ensures Resolves(tab, t) ==> StoredForm(r, t.access_no).Some?
    ensures Resolves(tab, t) && StoredForm(tab, t.access_no).Some? ==>
              StoredTransaction(r, KeyOf(t, StoredForm(tab, t.access_no).value)).Some?
  {
    var parties := WithIndividual(WithIssuer(tab, t), t);
    ExtendsTrans(tab, WithIssuer(tab, t), parties);
    StoredExtends(WithIssuer(tab, t), parties, t.company_cik, t.owner_cik, t.access_no, KeyOf(t, 0));
    if !Resolves(tab, t) then parties
    else
      var issuer := StoredIssuer(tab, t.company_cik).value;
      var ind := StoredIndividual(tab, t.owner_cik).value;
      var withForm := WithForm(parties, t, issuer);
      ExtendsTrans(tab, parties, withForm);
      match StoredForm(tab, t.access_no)
      case None => withForm
      case Some(form) =>
        var r := WithTransaction(withForm, t, form, issuer, ind, codes);
        ExtendsTrans(tab, withForm, r);
        StoredExtends(withForm, r, t.company_cik, t.owner_cik, t.access_no, KeyOf(t, form));
        r
  }

  /** The store after `save_filings_db` has saved `fs` in order. */
  function SaveAll(tab: Tables, fs: seq<FilingTransaction>, codes: Relationship -> i32): (r: Tables)
    ensures Extends(tab, r)
    decreases |fs|
  {
    if fs == [] then tab
    else
      var prev := SaveAll(tab, fs[..|fs| - 1], codes);
      var r := SaveOne(prev, fs[|fs| - 1], codes);
      ExtendsTrans(tab, prev, r);
      r
  }

  /** Saving one more filing of a prefix is one more `SaveOne`. */
  lemma SaveAllSnoc(tab: Tables, fs: seq<FilingTransaction>, k: nat, codes: Relationship -> i32)
    requires k < |fs|
    ensures SaveAll(tab, fs[..k + 1], codes) == SaveOne(SaveAll(tab, fs[..k], codes), fs[k], codes)
  {
    assert fs[..k + 1][..k] == fs[..k];
  }

  /** Parties stored in `a` stay stored in every extension of it. */
  lemma ResolvesExtends(a: Tables, b: Tables, t: FilingTransaction)
    requires Extends(a, b) && Resolves(a, t)
    ensures Resolves(b, t)
  {
    StoredExtends(a, b, t.company_cik, t.owner_cik, t.access_no, KeyOf(t, 0));
  }

  /** Parties, forms and transactions stored for `fs` in `a` stay stored in every extension of it. */
  lemma PartiesExtend(a: Tables, b: Tables, fs: seq<FilingTransaction>)
    requires Extends(a, b)
    requires forall k :: 0 <= k < |fs| ==> Resolves(a, fs[k])
    ensures forall k :: 0 <= k < |fs| ==> Resolves(b, fs[k])
  {
    forall k | 0 <= k < |fs| ensures Resolves(b, fs[k]) {
      ResolvesExtends(a, b, fs[k]);
    }
  }

  lemma FormsExtend(a: Tables, b: Tables, fs: seq<FilingTransaction>)
    requires Extends(a, b)
    requires forall k :: 0 <= k < |fs| ==> StoredForm(a, fs[k].access_no).Some?
    ensures forall k :: 0 <= k < |fs| ==> StoredForm(b, fs[k].access_no).Some?
  {
    forall k | 0 <= k < |fs| ensures StoredForm(b, fs[k].access_no).Some? {
      StoredExtends(a, b, "", "", fs[k].access_no, KeyOf(fs[k], 0));
    }
  }

  lemma TransactionsExtend(a: Tables, b: Tables, tab: Tables, fs: seq<FilingTransaction>)
    requires Extends(a, b)
    requires forall k :: 0 <= k < |fs| ==> StoredForm(tab, fs[k].access_no).Some?
    requires forall k :: 0 <= k < |fs| ==>
               StoredTransaction(a, KeyOf(fs[k], StoredForm(tab, fs[k].access_no).value)).Some?
    ensures forall k :: 0 <= k < |fs| ==>
              StoredTransaction(b, KeyOf(fs[k], StoredForm(tab, fs[k].access_no).value)).Some?
  {
    forall k | 0 <= k < |fs| ensures StoredTransaction(b, KeyOf(fs[k], StoredForm(tab, fs[k].access_no).value)).Some? {
      StoredExtends(a, b, "", "", "", KeyOf(fs[k], StoredForm(tab, fs[k].access_no).value));
    }
  }

  /** One more transaction, whose parties `r` stores, on top of `init`'s. */
  lemma PartiesStep(prev: Tables, r: Tables, init: seq<FilingTransaction>, last: FilingTransaction)
    requires Extends(prev, r) && Resolves(r, last)
    requires forall k :: 0 <= k < |init| ==> Resolves(prev, init[k])
    ensures forall k :: 0 <= k < |init + [last]| ==> Resolves(r, (init + [last])[k])
  {
    PartiesExtend(prev, r, init);
    var fs := init + [last];
    forall k | 0 <= k < |fs| ensures Resolves(r, fs[k]) {
      if k < |init| {
        assert fs[k] == init[k];
      }
    }
  }

  /** After `save_filings_db`, both parties of every saved transaction are stored. */
  lemma {:induction false} SaveAllStoresParties(tab: Tables, fs: seq<FilingTransaction>, codes: Relationship -> i32)
    ensures forall k :: 0 <= k < |fs| ==> Resolves(SaveAll(tab, fs, codes), fs[k])
    decreases |fs|
  {
    if fs != [] {
      var init := fs[..|fs| - 1];
      SaveAllStoresParties(tab, init, codes);
      assert fs == init + [fs[|fs| - 1]];
      PartiesStep(SaveAll(tab, init, codes), SaveAll(tab, fs, codes), init, fs[|fs| - 1]);
    }
  }

  lemma FormsStep(prev: Tables, r: Tables, init: seq<FilingTransaction>, last: FilingTransaction)
    requires Extends(prev, r) && StoredForm(r, last.access_no).Some?
    requires forall k :: 0 <= k < |init| ==> StoredForm(prev, init[k].access_no).Some?
    ensures forall k :: 0 <= k < |init + [last]| ==> StoredForm(r, (init + [last])[k].access_no).Some?
  {
    FormsExtend(prev, r, init);
    var fs := init + [last];
    forall k | 0 <= k < |fs| ensures StoredForm(r, fs[k].access_no).Some? {
      if k < |init| {
        assert fs[k] == init[k];
      }
    }
  }

  lemma TransactionsStep(prev: Tables, r: Tables, tab: Tables, init: seq<FilingTransaction>, last: FilingTransaction)
    requires Extends(prev, r)
    requires forall k :: 0 <= k < |init| ==> StoredForm(tab, init[k].access_no).Some?
    requires forall k :: 0 <= k < |init| ==>
               StoredTransaction(prev, KeyOf(init[k], StoredForm(tab, init[k].access_no).value)).Some?
    requires StoredForm(tab, last.access_no).Some?
    requires StoredTransaction(r, KeyOf(last, StoredForm(tab, last.access_no).value)).Some?
    ensures forall k :: 0 <= k < |init + [last]| ==>
              StoredTransaction(r, KeyOf((init + [last])[k], StoredForm(tab, (init + [last])[k].access_no).value)).Some?
  {
    TransactionsExtend(prev, r, tab, init);
    var fs := init + [last];
    forall k | 0 <= k < |fs|
      ensures StoredTransaction(r, KeyOf(fs[k], StoredForm(tab, fs[k].access_no).value)).Some?
    {
      if k < |init| {
        assert fs[k] == init[k];
      }
    }
  }

  /**
   * Saving filings whose parties are all stored resolves every one of
   * them, so each is given a form.
   */
  lemma {:induction false} SaveAllStoresForms(tab: Tables, fs: seq<FilingTransaction>, codes: Relationship -> i32)
    requires forall k :: 0 <= k < |fs| ==> Resolves(tab, fs[k])
    ensures forall k :: 0 <= k < |fs| ==> StoredForm(SaveAll(tab, fs, codes), fs[k].access_no).Some?
    decreases |fs|
  {
    if fs != [] {
      var init := fs[..|fs| - 1];
      var last := fs[|fs| - 1];
      assert fs == init + [last];
      SaveAllStoresForms(tab, init, codes);
      var prev := SaveAll(tab, init, codes);
      ResolvesExtends(tab, prev, last);
      FormsStep(prev, SaveAll(tab, fs, codes), init, last);
    }
  }

  /**
   * Saving filings whose parties and forms are all stored inserts every
   * transaction under its form's id.
   */
  lemma {:induction false} SaveAllStoresTransactions(tab: Tables, fs: seq<FilingTransaction>, codes: Relationship -> i32)
    requires forall k :: 0 <= k < |fs| ==> Resolves(tab, fs[k]) && StoredForm(tab, fs[k].access_no).Some?
    ensures forall k :: 0 <= k < |fs| ==>
              StoredTransaction(SaveAll(tab, fs, codes), KeyOf(fs[k], StoredForm(tab, fs[k].access_no).value)).Some?
    decreases |fs|
  {
    if fs != [] {
      var init := fs[..|fs| - 1];
      var last := fs[|fs| - 1];
      assert fs == init + [last];
      SaveAllStoresTransactions(tab, init, codes);
      var prev := SaveAll(tab, init, codes);
      StoredExtends(tab, prev, last.company_cik, last.owner_cik, last.access_no, KeyOf(last, 0));
      TransactionsStep(prev, SaveAll(tab, fs, codes), tab, init, last);
    }
  }

  /**
   * Saving the same filings three times, as `run` does when it reuses a
   * checkpoint: the first pass stores the parties, the second the forms
   * and the third every transaction. A second pass logs "insert" for every
   * transaction.
   */
  lemma ThreePassesStoreAll(tab: Tables, fs: seq<FilingTransaction>, codes: Relationship -> i32)
    ensures var once := SaveAll(tab, fs, codes);
            var twice := SaveAll(once, fs, codes);
            (forall k :: 0 <= k < |fs| ==> Resolves(once, fs[k]))
            && (forall k :: 0 <= k < |fs| ==> Resolves(SaveAll(once, fs[..k], codes), fs[k]))
            && (forall k :: 0 <= k < |fs| ==> StoredForm(twice, fs[k].access_no).Some?)
            && (forall k :: 0 <= k < |fs| ==>
                  StoredTransaction(SaveAll(twice, fs, codes), KeyOf(fs[k], StoredForm(twice, fs[k].access_no).value)).Some?)
  {
    var once := SaveAll(tab, fs, codes);
    SaveAllStoresParties(tab, fs, codes);
    forall k | 0 <= k < |fs| ensures Resolves(SaveAll(once, fs[..k], codes), fs[k]) {
      ResolvesExtends(once, SaveAll(once, fs[..k], codes), fs[k]);
    }
    SaveAllStoresForms(once, fs, codes);
    var twice := SaveAll(once, fs, codes);
    forall k | 0 <= k < |fs| ensures Resolves(twice, fs[k]) {
      ResolvesExtends(once, twice, fs[k]);
    }
    SaveAllStoresTransactions(twice, fs, codes);
  }

  /**
   * The first two steps of a transaction of `save_filings_db`: the issuer
   * and then the individual are resolved, each whatever became of the
   * other. Each answer is the id stored beforehand, and fails when there
   * was none.
   */
  method ResolveParties(helper: SqlHelper, db: Store, t: FilingTransaction)
    returns (issuer: Outcome<int>, ind: Outcome<int>)
    requires db.Valid() && helper.Consistent(db)
    modifies helper, db
    ensures db.Valid() && helper.Consistent(db)
    ensures db.Snapshot() == WithIndividual(WithIssuer(old(db.Snapshot()), t), t)
    ensures Grows(old(helper.issuersCache), helper.issuersCache)
    ensures Grows(old(helper.indCache), helper.indCache)
    ensures issuer.Ok? == StoredIssuer(old(db.Snapshot()), t.company_cik).Some?
    ensures issuer.Ok? ==> Some(issuer.value) == StoredIssuer(old(db.Snapshot()), t.company_cik)
    ensures ind.Ok? == StoredIndividual(old(db.Snapshot()), t.owner_cik).Some?
    ensures ind.Ok? ==> Some(ind.value) == StoredIndividual(old(db.Snapshot()), t.owner_cik)
    ensures db.IssuerId(t.company_cik).Some? && db.IndividualId(t.owner_cik).Some?
    ensures db.forms == old(db.forms) && db.transactions == old(db.transactions)
    ensures helper.formCache == old(helper.formCache)
  {
    issuer := helper.CreateIssuer(db, t);
    ind := helper.CreateIndividual(db, t);
  }

  /**
   * One transaction of `save_filings_db`: only when both parties are known
   * is the form resolved, and only with a form is the transaction
   * inserted. The answer says whether both parties were known.
   */
  method SaveTransaction(helper: SqlHelper, db: Store, t: FilingTransaction, codes: Relationship -> i32)
    returns (resolved: bool)
    requires db.Valid() && helper.Consistent(db)
    modifies helper, db
    ensures db.Valid() && helper.Consistent(db)
    ensures db.Snapshot() == SaveOne(old(db.Snapshot()), t, codes)
    ensures resolved == Resolves(old(db.Snapshot()), t)
    ensures db.IssuerId(t.company_cik).Some? && db.IndividualId(t.owner_cik).Some?
    ensures resolved ==> db.FormId(t.access_no).Some?
    ensures resolved && old(db.FormId(t.access_no)).Some? ==>
              db.TransactionWith(KeyOf(t, old(db.FormId(t.access_no)).value)).Some?
    ensures !resolved ==> db.forms == old(db.forms) && db.transactions == old(db.transactions)
    ensures Grows(old(helper.issuersCache), helper.issuersCache)
    ensures Grows(old(helper.indCache), helper.indCache)
    ensures Grows(old(helper.formCache), helper.formCache)
    ensures !resolved ==> helper.formCache == old(helper.formCache)
  {
    ghost var before := db.Snapshot();
    var issuer, ind := ResolveParties(helper, db, t);
    if !issuer.Ok? || !ind.Ok? {
      return false;
    }
    var form := helper.CreateForm(db, t, issuer.value);
    if form.Ok? {
      var _ := helper.InsertNonDeriv(db, t, form.value, issuer.value, ind.value, codes);
    }
    return true;
  }

  /** The progress line of transaction `k` when saving `fs` onto `tab`. */
  function ProgressLine(tab: Tables, fs: seq<FilingTransaction>, k: nat, codes: Relationship -> i32): string
    requires k < |fs|
  {
    if Resolves(SaveAll(tab, fs[..k], codes), fs[k]) then InsertedLine(k + 1, |fs|)
    else FailedLine(k + 1, |fs|)
  }

  lemma ProgressLogStep(tab: Tables, fs: seq<FilingTransaction>, log: seq<string>, line: string,
                        codes: Relationship -> i32)
    requires |log| < |fs|
    requires forall j :: 0 <= j < |log| ==> log[j] == ProgressLine(tab, fs, j, codes)
    requires line == ProgressLine(tab, fs, |log|, codes)
    ensures forall j :: 0 <= j < |log + [line]| ==> (log + [line])[j] == ProgressLine(tab, fs, j, codes)
  {
    forall j | 0 <= j < |log + [line]| ensures (log + [line])[j] == ProgressLine(tab, fs, j, codes) {
      if j < |log| {
        assert (log + [line])[j] == log[j];
      } else {
        assert j == |log|;
        assert (log + [line])[j] == line;
      }
    }
  }

  /**
   * `save_filings_db`, one transaction after another with a fresh helper:
   * the store ends as `SaveAll` says, and line `k` of the log says
   * "insert" exactly when both parties of transaction `k` were stored when
   * its turn came.
   */
  method SaveFilingsDb(filings: seq<FilingTransaction>, db: Store, codes: Relationship -> i32)
    returns (progress: nat, log: seq<string>)
    requires db.Valid()
    modifies db
    ensures db.Valid()
    ensures db.Snapshot() == SaveAll(old(db.Snapshot()), filings, codes)
    ensures Extends(old(db.Snapshot()), db.Snapshot())
    ensures forall k :: 0 <= k < |filings| ==>
              db.IssuerId(filings[k].company_cik).Some? && db.IndividualId(filings[k].owner_cik).Some?
    ensures progress == |filings| && |log| == |filings|
    ensures forall k :: 0 <= k < |log| ==> log[k] == ProgressLine(old(db.Snapshot()), filings, k, codes)
    ensures forall k :: 0 <= k < |log| ==>
              log[k] == FailedLine(k + 1, |filings|) || log[k] == InsertedLine(k + 1, |filings|)
  {
    ghost var start := db.Snapshot();
    var helper := new SqlHelper();
    var total := |filings|;
    progress := 0;
    log := [];
    var k := 0;
    while k < total
      invariant 0 <= k <= total && progress == k && |log| == k
      invariant db.Snapshot() == SaveAll(start, filings[..k], codes)
      invariant forall j :: 0 <= j < k ==> log[j] == ProgressLine(start, filings, j, codes)
      invariant db.Valid() && helper.Consistent(db)
      invariant fresh(helper)
    {
      var line := SaveNext(helper, db, start, filings, k, codes);
      progress := progress + 1;
      ProgressLogStep(start, filings, log, line, codes);
      log := log + [line];
      k := k + 1;
    }
    assert filings[..k] == filings;
    SaveAllStoresParties(start, filings, codes);
  }

  /** Transaction `k` of `save_filings_db` and the progress line it prints. */
  method SaveNext(helper: SqlHelper, db: Store, ghost start: Tables, filings: seq<FilingTransaction>, k: nat,
                  codes: Relationship -> i32) returns (line: string)
    requires k < |filings|
    requires db.Valid() && helper.Consistent(db)
    requires db.Snapshot() == SaveAll(start, filings[..k], codes)
    modifies helper, db
    ensures db.Valid() && helper.Consistent(db)
    ensures db.Snapshot() == SaveAll(start, filings[..k + 1], codes)
    ensures line == ProgressLine(start, filings, k, codes)
  {
    var resolved := SaveTransaction(helper, db, filings[k], codes);
    SaveAllSnoc(start, filings, k, codes);
    line := if resolved then InsertedLine(k + 1, |filings|) else FailedLine(k + 1, |filings|);
  }

  /** The task `process_entries` spawns for an entry. */
  function FormTask(env: Env): Task {
    e => GetForm(e, env)
  }

  /** How a call of `run` ended. */
  datatype RunStep = Waited | Reused | EmptyIndex | Mined

  /** The entries the sub-batches of `run` fetch: all but the last `|body| % batch`. */
  function BatchedPrefix(body: seq<IndexEntry>, batch: nat): (p: seq<IndexEntry>)
    requires batch > 0
    ensures |p| == |body| - |body| % batch && p == body[..|p|]
  {
    body[..(|body| / batch) * batch]
  }

  lemma BatchFits(i: nat, total: nat, batch: nat, n: nat)
    requires batch > 0 && total == n / batch && i < total
    ensures (i + 1) * batch <= n
  {
    assert i + 1 <= total;
    assert (i + 1) * batch <= total * batch;
  }

  lemma NextSkip(i: nat, batch: nat, skip: nat)
    requires skip == i * batch
    ensures (i + 1) * batch == skip + batch
  {
  }

  /** The window at `skip` extends the prefix before it. */
  lemma BatchStep(body: seq<IndexEntry>, skip: nat, batch: nat, task: Task,
                  fb: seq<FilingTransaction>, f0: seq<FilingTransaction>, f1: seq<FilingTransaction>,
                  db: seq<string>, d0: seq<string>, d1: seq<string>)
    requires skip + batch <= |body|
    requires f0 == fb + Fetched(body[..skip], task) && f1 == f0 + Fetched(Window(body, skip, batch), task)
    requires d0 == db + DeadLetters(body[..skip], task) && d1 == d0 + DeadLetters(Window(body, skip, batch), task)
    ensures f1 == fb + Fetched(body[..skip + batch], task)
    ensures d1 == db + DeadLetters(body[..skip + batch], task)
  {
    var p, w := body[..skip], body[skip..skip + batch];
    assert Window(body, skip, batch) == w;
    assert p + w == body[..skip + batch];
    FetchedAppend(p, w, task);
    calc {
      f1;
      fb + Fetched(p, task) + Fetched(w, task);
    == { Regroup(fb, Fetched(p, task), Fetched(w, task)); }
      fb + Fetched(p + w, task);
    }
    calc {
      d1;
      db + DeadLetters(p, task) + DeadLetters(w, task);
    == { Regroup(db, DeadLetters(p, task), DeadLetters(w, task)); }
      db + DeadLetters(p + w, task);
    }
  }

  /**
   * The sub-batch loop of `run`: `len / batch` calls of `process_entries`,
   * with `skip` at 0, `batch`, `2 * batch`, ...
   */
  method FetchBatches(body: seq<IndexEntry>, batch: nat, buffer: FilingBuffer, disk: Disk, task: Task)
    requires batch > 0
    modifies buffer, disk
    ensures buffer.filings == old(buffer.filings) + Fetched(BatchedPrefix(body, batch), task)
    ensures disk.failed == old(disk.failed) + DeadLetters(BatchedPrefix(body, batch), task)
    ensures disk.files == old(disk.files)
  {
    var total := |body| / batch;
    var i, skip := 0, 0;
    assert body[..0] == [];
    assert old(buffer.filings) + [] == old(buffer.filings);
    assert old(disk.failed) + [] == old(disk.failed);
    while i < total
      invariant 0 <= i <= total && skip == i * batch
      invariant buffer.filings == old(buffer.filings) + Fetched(body[..skip], task)
      invariant disk.failed == old(disk.failed) + DeadLetters(body[..skip], task)
      invariant disk.files == old(disk.files)
    {
      BatchFits(i, total, batch, |body|);
      ghost var f0, d0 := buffer.filings, disk.failed;
      var _ := ProcessEntries(body, buffer, disk, skip, batch, task);
      BatchStep(body, skip, batch, task, old(buffer.filings), f0, buffer.filings, old(disk.failed), d0, disk.failed);
      assert buffer.filings == old(buffer.filings) + Fetched(body[..skip + batch], task);
      assert disk.failed == old(disk.failed) + DeadLetters(body[..skip + batch], task);
      NextSkip(i, batch, skip);
      skip := skip + batch;
      i := i + 1;
    }
    assert skip == (|body| / batch) * batch;
    assert body[..skip] == BatchedPrefix(body, batch);
  }

  /** `Miner`: the day to mine next. */
  class Miner {
    var mine_date: Date

    /** `Miner::new`. */
    constructor (start: Date)
      ensures mine_date == start
    {
      mine_date := start;
    }

    /** `increment_day`: the next calendar day. */
    method IncrementDay()
      requires Valid(mine_date)
      modifies this
      ensures mine_date == Succ(old(mine_date)) && Valid(mine_date)
    {
      mine_date := Succ(mine_date);
    }

    function FilePath(): string
      requires Valid(mine_date)
      reads this
    {
      FilePathOf(mine_date)
    }

    /** `save_filings_json`: the day's checkpoint holds `filings`. */
    method SaveFilingsJson(filings: seq<FilingTransaction>, disk: Disk)
      requires Valid(mine_date)
      modifies disk
      ensures disk.files == old(disk.files)[FilePath() := Some(filings)]
      ensures disk.failed == old(disk.failed)
    {
      disk.files := disk.files[FilePath() := Some(filings)];
    }

    /**
     * `run`: with at most 10 requests per batch, and unless `mine_date` is
     * after `today`, mine the day and advance to the next one.
     */
    method Run(batch: nat, today: Date, disk: Disk, db: Store, env: Env, codes: Relationship -> i32)
      returns (r: Outcome<RunStep>)
      requires Valid(mine_date) && db.Valid()
      modifies this, disk, db
      ensures Valid(mine_date) && db.Valid()
      ensures !r.Err?
      ensures r.Panic? || r == Ok(Waited) ==> mine_date == old(mine_date)
      ensures r.Ok? && r.value != Waited ==> mine_date == Succ(old(mine_date))
      ensures batch > 10 ==> r == Panic(BatchLimit)
      ensures r == Ok(Waited) <==> batch <= 10 && Before(today, old(mine_date))
      ensures r == Ok(Waited) || r == Ok(Reused) ==> disk.files == old(disk.files) && disk.failed == old(disk.failed)
      ensures r.Panic? ==> disk.files == old(disk.files) && disk.failed == old(disk.failed)
      ensures var path := FilePathOf(old(mine_date));
              r == Ok(Reused) <==> batch <= 10 && !Before(today, old(mine_date))
                                   && path in old(disk.files) && old(disk.files)[path].Some?
      ensures var path := FilePathOf(old(mine_date));
              var index := DailyEntries(old(mine_date), env);
              batch <= 10 && !Before(today, old(mine_date))
              && !(path in old(disk.files) && old(disk.files)[path].Some?) ==>
                if !index.Ok? then r == Panic(UnwrapErr)
                else if index.value == [] then
                  r == Ok(EmptyIndex) && disk.files == old(disk.files) && disk.failed == old(disk.failed)
                else if batch == 0 then r == Panic(DivideByZero)
                else
                  var fetched := BatchedPrefix(index.value, batch);
                  r == Ok(Mined)
                  && disk.files == old(disk.files)[path := Some(Fetched(fetched, FormTask(env)))]
                  && disk.failed == old(disk.failed) + DeadLetters(fetched, FormTask(env))
      ensures var path := FilePathOf(old(mine_date));
              r == Ok(Reused) ==>
                path in old(disk.files) && old(disk.files)[path].Some?
                && db.Snapshot() == SaveAll(old(db.Snapshot()), old(disk.files)[path].value, codes)
      ensures var index := DailyEntries(old(mine_date), env);
              r == Ok(Mined) ==>
                index.Ok?
                && db.Snapshot() == SaveAll(old(db.Snapshot()), Fetched(BatchedPrefix(index.value, batch), FormTask(env)), codes)
      ensures r != Ok(Reused) && r != Ok(Mined) ==> db.Snapshot() == old(db.Snapshot())
    {
      if batch > 10 {
        return Panic(BatchLimit);
      }
      if Before(today, mine_date) {
        return Ok(Waited);
      }
      var path := FilePath();
      if path in disk.files && disk.files[path].Some? {
        ReuseCheckpoint(disk.files[path].value, db, codes);
        return Ok(Reused);
      }
      r := MineDay(batch, disk, db, env, codes);
    }

    /** The part of `run` for a readable checkpoint: its filings are saved again and the day advances. */
    method ReuseCheckpoint(filings: seq<FilingTransaction>, db: Store, codes: Relationship -> i32)
      requires Valid(mine_date) && db.Valid()
      modifies this, db
      ensures Valid(mine_date) && db.Valid()
      ensures mine_date == Succ(old(mine_date))
      ensures db.Snapshot() == SaveAll(old(db.Snapshot()), filings, codes)
    {
      var _, _ := SaveFilingsDb(filings, db, codes);
      IncrementDay();
    }

    /**
     * The part of `run` after a missing or unreadable checkpoint: the day's
     * index is fetched and, when it is not empty, mined in sub-batches.
     */
    method MineDay(batch: nat, disk: Disk, db: Store, env: Env, codes: Relationship -> i32)
      returns (r: Outcome<RunStep>)
      requires Valid(mine_date) && db.Valid()
      modifies this, disk, db
      ensures Valid(mine_date) && db.Valid()
      ensures r.Panic? ==> disk.files == old(disk.files) && disk.failed == old(disk.failed)
      ensures var index := DailyEntries(old(mine_date), env);
              if !index.Ok? then
                r == Panic(UnwrapErr) && mine_date == old(mine_date) && db.Snapshot() == old(db.Snapshot())
              else if index.value == [] then
                r == Ok(EmptyIndex) && mine_date == Succ(old(mine_date)) && db.Snapshot() == old(db.Snapshot())
                && disk.files == old(disk.files) && disk.failed == old(disk.failed)
              else if batch == 0 then
                r == Panic(DivideByZero) && mine_date == old(mine_date) && db.Snapshot() == old(db.Snapshot())
              else
                var fetched := Fetched(BatchedPrefix(index.value, batch), FormTask(env));
                r == Ok(Mined) && mine_date == Succ(old(mine_date))
                && disk.files == old(disk.files)[FilePathOf(old(mine_date)) := Some(fetched)]
                && disk.failed == old(disk.failed) + DeadLetters(BatchedPrefix(index.value, batch), FormTask(env))
                && db.Snapshot() == SaveAll(old(db.Snapshot()), fetched, codes)
    {
      var index := DailyEntries(mine_date, env);
      if !index.Ok? {
        return Panic(UnwrapErr);
      }
      var body := index.value;
      if body == [] {
        IncrementDay();
        return Ok(EmptyIndex);
      }
      if batch == 0 {
        return Panic(DivideByZero);
      }
      MineIndex(body, batch, disk, db, env, codes);
      return Ok(Mined);
    }

    /**
     * The end of `run` for a non-empty index: fetch the sub-batches into a
     * fresh buffer, checkpoint it, save it to the database and advance.
     */
    method MineIndex(body: seq<IndexEntry>, batch: nat, disk: Disk, db: Store, env: Env, codes: Relationship -> i32)
      requires Valid(mine_date) && db.Valid() && batch > 0
      modifies this, disk, db
      ensures Valid(mine_date) && db.Valid()
      ensures mine_date == Succ(old(mine_date))
      ensures var fetched := BatchedPrefix(body, batch);
              disk.files == old(disk.files)[FilePathOf(old(mine_date)) := Some(Fetched(fetched, FormTask(env)))]
              && disk.failed == old(disk.failed) + DeadLetters(fetched, FormTask(env))
      ensures db.Snapshot() == SaveAll(old(db.Snapshot()), Fetched(BatchedPrefix(body, batch), FormTask(env)), codes)
    {
      var buffer := new FilingBuffer();
      FetchBatches(body, batch, buffer, disk, FormTask(env));
      var filings := buffer.filings;
      assert filings == Fetched(BatchedPrefix(body, batch), FormTask(env));
      SaveFilingsJson(filings, disk);
      var _, _ := SaveFilingsDb(filings, db, codes);
      IncrementDay();
    }
  }
}
