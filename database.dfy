/**
 * The cache-assisted upsert of issuers, individuals, forms and
 * transactions. The database is a `Store` of four tables; a lookup returns
 * the first row whose key matches, and an insert appends a row whose id is
 * one more than the number of rows already in its table.
 */
module Database {
  import opened Wrappers
  import opened Numbers
  import opened Calendar
  import opened Models
  import opened InsertModels
  import opened QueryModels

  datatype IssuerRow = IssuerRow(issuer_id: int, name: string, symbol: string, cik: string)

  datatype IndividualRow = IndividualRow(
    individual_id: int, cik: string, full_name: string, first_name: string, last_name: string)

  datatype FormRow = FormRow(
    form_id: int, issuer_id: int, date_reported: Date, form_type: string,
    txt_url: string, web_url: string, access_no: string)

  /** The key `insert_nonderiv` matches on: form, date and shares balance. */
  datatype TransactionKey = TransactionKey(form_id: int, date_reported: Date, shares_balance: real)

  function IssuerCik(r: IssuerRow): string { r.cik }
  function IndividualCik(r: IndividualRow): string { r.cik }
  function FormAccessNo(r: FormRow): string { r.access_no }
  function IssuerRowId(r: IssuerRow): int { r.issuer_id }
  function IndividualRowId(r: IndividualRow): int { r.individual_id }
  function FormRowId(r: FormRow): int { r.form_id }
  function RowKey(r: TransactionRow): TransactionKey {
    TransactionKey(r.form_id, r.date_reported, r.shares_balance)
  }

  /** Index of the first row whose key is `k`. */
  function FirstWith<T, K(==)>(rows: seq<T>, key: T -> K, k: K): (r: Option<nat>)
    ensures r.Some? ==> r.value < |rows| && key(rows[r.value]) == k
    ensures r.Some? ==> forall i :: 0 <= i < r.value ==> key(rows[i]) != k
    ensures r.None? ==> forall i :: 0 <= i < |rows| ==> key(rows[i]) != k
  {
    if rows == [] then None
    else if key(rows[0]) == k then Some(0)
    else
      match FirstWith(rows[1..], key, k)
      case None => None
      case Some(i) => Some(i + 1)
  }

  /** Appending a row leaves every earlier match where it was. */
  lemma {:induction false} FirstWithAppend<T, K>(rows: seq<T>, key: T -> K, row: T, k: K)
    ensures FirstWith(rows + [row], key, k)
         == if FirstWith(rows, key, k).Some? then FirstWith(rows, key, k)
            else if key(row) == k then Some(|rows|) else None
  {
    var s := rows + [row];
    if rows == [] {
      assert s == [row];
      assert s[1..] == [];
    } else {
      assert s[0] == rows[0];
      assert s[1..] == rows[1..] + [row];
      FirstWithAppend(rows[1..], key, row, k);
    }
  }

  /** The id of the first row whose key is `k`. */
  function IdIn<T>(rows: seq<T>, key: T -> string, id: T -> int, k: string): (r: Option<int>)
    ensures r.Some? <==> FirstWith(rows, key, k).Some?
  {
    match FirstWith(rows, key, k)
    case Some(i) => Some(id(rows[i]))
    case None => None
  }

  /** Every id in `cache` is the id `rows` holds for that key. */
  ghost predicate Cached<T>(cache: map<string, int>, rows: seq<T>, key: T -> string, id: T -> int) {
    forall k :: k in cache ==> IdIn(rows, key, id, k) == Some(cache[k])
  }

  /** Appending a row with a new key keeps every cached id and makes the new key's id the row's. */
  lemma CachedAppend<T>(cache: map<string, int>, rows: seq<T>, key: T -> string, id: T -> int, row: T)
    requires Cached(cache, rows, key, id)
    requires FirstWith(rows, key, key(row)).None?
    ensures Cached(cache, rows + [row], key, id)
    ensures IdIn(rows + [row], key, id, key(row)) == Some(id(row))
  {
    forall k | k in cache ensures IdIn(rows + [row], key, id, k) == Some(cache[k]) {
      FirstWithAppend(rows, key, row, k);
    }
    FirstWithAppend(rows, key, row, key(row));
  }

  /** Caching the stored id of a key keeps the cache consistent. */
  lemma CachedStore<T>(cache: map<string, int>, rows: seq<T>, key: T -> string, id: T -> int, k: string)
    requires Cached(cache, rows, key, id)
    requires IdIn(rows, key, id, k).Some?
    ensures Cached(cache[k := IdIn(rows, key, id, k).value], rows, key, id)
  {
  }

  /** No two rows share a key. */
  ghost predicate Unique<T, K>(rows: seq<T>, key: T -> K) {
    forall i, j :: 0 <= i < j < |rows| ==> key(rows[i]) != key(rows[j])
  }

  /** Appending a row with a new key keeps the keys unique. */
  lemma UniqueAppend<T, K>(rows: seq<T>, key: T -> K, row: T)
    requires Unique(rows, key)
    requires FirstWith(rows, key, key(row)).None?
    ensures Unique(rows + [row], key)
  {
    var s := rows + [row];
    forall i, j | 0 <= i < j < |s| ensures key(s[i]) != key(s[j]) {
      assert s[i] == rows[i];
      if j < |rows| {
        assert s[j] == rows[j];
      }
    }
  }

  /** A match in a prefix of the rows is the match in all of them. */
  lemma FirstWithExtends<T, K>(rows: seq<T>, more: seq<T>, key: T -> K, k: K)
    requires FirstWith(rows, key, k).Some?
    requires |rows| <= |more| && more[..|rows|] == rows
    ensures FirstWith(more, key, k) == FirstWith(rows, key, k)
  {
    var i := FirstWith(rows, key, k).value;
    forall l | 0 <= l <= i ensures more[l] == rows[l] {
      assert more[l] == more[..|rows|][l];
    }
    assert key(more[i]) == k;
    assert forall l :: 0 <= l < i ==> key(more[l]) != k;
  }

  /** The four tables of a store, as values. */
  datatype Tables = Tables(
    issuers: seq<IssuerRow>, individuals: seq<IndividualRow>,
    forms: seq<FormRow>, transactions: seq<TransactionRow>)

  function StoredIssuer(tab: Tables, cik: string): Option<int> {
    IdIn(tab.issuers, IssuerCik, IssuerRowId, cik)
  }

  function StoredIndividual(tab: Tables, cik: string): Option<int> {
    IdIn(tab.individuals, IndividualCik, IndividualRowId, cik)
  }

  function StoredForm(tab: Tables, access_no: string): Option<int> {
    IdIn(tab.forms, FormAccessNo, FormRowId, access_no)
  }

  function StoredTransaction(tab: Tables, k: TransactionKey): Option<nat> {
    FirstWith(tab.transactions, RowKey, k)
  }

  /** Every table of `a` is a prefix of the same table of `b`. */
  predicate Extends(a: Tables, b: Tables) {
    |a.issuers| <= |b.issuers| && b.issuers[..|a.issuers|] == a.issuers
    && |a.individuals| <= |b.individuals| && b.individuals[..|a.individuals|] == a.individuals
    && |a.forms| <= |b.forms| && b.forms[..|a.forms|] == a.forms
    && |a.transactions| <= |b.transactions| && b.transactions[..|a.transactions|] == a.transactions
  }

  lemma ExtendsTrans(a: Tables, b: Tables, c: Tables)
    requires Extends(a, b) && Extends(b, c)
    ensures Extends(a, c)
  {
    assert c.issuers[..|a.issuers|] == c.issuers[..|b.issuers|][..|a.issuers|];
    assert c.individuals[..|a.individuals|] == c.individuals[..|b.individuals|][..|a.individuals|];
    assert c.forms[..|a.forms|] == c.forms[..|b.forms|][..|a.forms|];
    assert c.transactions[..|a.transactions|] == c.transactions[..|b.transactions|][..|a.transactions|];
  }

  /** What is stored stays stored, under the same id, as the tables grow. */
  lemma StoredExtends(a: Tables, b: Tables, cik: string, owner: string, access_no: string, k: TransactionKey)
    requires Extends(a, b)
    ensures StoredIssuer(a, cik).Some? ==> StoredIssuer(b, cik) == StoredIssuer(a, cik)
    ensures StoredIndividual(a, owner).Some? ==> StoredIndividual(b, owner) == StoredIndividual(a, owner)
    ensures StoredForm(a, access_no).Some? ==> StoredForm(b, access_no) == StoredForm(a, access_no)
    ensures StoredTransaction(a, k).Some? ==> StoredTransaction(b, k) == StoredTransaction(a, k)
  {
    if StoredIssuer(a, cik).Some? {
      FirstWithExtends(a.issuers, b.issuers, IssuerCik, cik);
      assert b.issuers[FirstWith(b.issuers, IssuerCik, cik).value] == a.issuers[FirstWith(a.issuers, IssuerCik, cik).value];
    }
    if StoredIndividual(a, owner).Some? {
      FirstWithExtends(a.individuals, b.individuals, IndividualCik, owner);
      assert b.individuals[FirstWith(b.individuals, IndividualCik, owner).value]
          == a.individuals[FirstWith(a.individuals, IndividualCik, owner).value];
    }
    if StoredForm(a, access_no).Some? {
      FirstWithExtends(a.forms, b.forms, FormAccessNo, access_no);
      assert b.forms[FirstWith(b.forms, FormAccessNo, access_no).value]
          == a.forms[FirstWith(a.forms, FormAccessNo, access_no).value];
    }
    if StoredTransaction(a, k).Some? {
      FirstWithExtends(a.transactions, b.transactions, RowKey, k);
    }
  }

  /** The store after `create_issuer`: a row for the issuer's CIK, added if there was none. */
  function WithIssuer(tab: Tables, f: FilingTransaction): (r: Tables)
    ensures StoredIssuer(r, f.company_cik).Some?
    ensures Extends(tab, r)
    ensures r.individuals == tab.individuals && r.forms == tab.forms && r.transactions == tab.transactions
  {
    if StoredIssuer(tab, f.company_cik).Some? then tab
    else
      var row := IssuerRow(|tab.issuers| + 1, f.company, f.symbol, f.company_cik);
      FirstWithAppend(tab.issuers, IssuerCik, row, f.company_cik);
      assert (tab.issuers + [row])[..|tab.issuers|] == tab.issuers;
      tab.(issuers := tab.issuers + [row])
  }

  /** The individual row `create_individual` inserts. */
  function IndividualRecord(id: int, f: FilingTransaction): IndividualRow {
    var ind := MapIndividual(f);
    IndividualRow(id, f.owner_cik, f.owner, OrEmpty(ind.first_name), OrEmpty(ind.last_name))
  }

  /** The store after `create_individual`. */
  function WithIndividual(tab: Tables, f: FilingTransaction): (r: Tables)
    ensures StoredIndividual(r, f.owner_cik).Some?
    ensures Extends(tab, r)
    ensures r.issuers == tab.issuers && r.forms == tab.forms && r.transactions == tab.transactions
  {
    if StoredIndividual(tab, f.owner_cik).Some? then tab
    else
      var row := IndividualRecord(|tab.individuals| + 1, f);
      FirstWithAppend(tab.individuals, IndividualCik, row, f.owner_cik);
      assert (tab.individuals + [row])[..|tab.individuals|] == tab.individuals;
      tab.(individuals := tab.individuals + [row])
  }

  /** The form row `create_form` inserts. */
  function FormRecord(id: int, f: FilingTransaction, issuer_id: int): FormRow {
    FormRow(id, issuer_id, f.form_date, f.form_type, f.form_url, f.web_url, f.access_no)
  }

  /** The store after `create_form`. */
  function WithForm(tab: Tables, f: FilingTransaction, issuer_id: int): (r: Tables)
    ensures StoredForm(r, f.access_no).Some?
    ensures Extends(tab, r)
    ensures r.issuers == tab.issuers && r.individuals == tab.individuals && r.transactions == tab.transactions
  {
    if StoredForm(tab, f.access_no).Some? then tab
    else
      var row := FormRecord(|tab.forms| + 1, f, issuer_id);
      FirstWithAppend(tab.forms, FormAccessNo, row, f.access_no);
      assert (tab.forms + [row])[..|tab.forms|] == tab.forms;
      tab.(forms := tab.forms + [row])
  }

  /** The key under which `insert_nonderiv` stores a transaction of form `form_id`. */
  function KeyOf(f: FilingTransaction, form_id: int): TransactionKey {
    TransactionKey(form_id, f.trans_date, f.shares_owned)
  }

  /** The store after `insert_nonderiv`. */
  function WithTransaction(tab: Tables, f: FilingTransaction, form_id: int, issuer_id: int, ind_id: int,
                           codes: Relationship -> i32): (r: Tables)
    ensures StoredTransaction(r, KeyOf(f, form_id)).Some?
    ensures Extends(tab, r)
    ensures r.issuers == tab.issuers && r.individuals == tab.individuals && r.forms == tab.forms
  {
    if StoredTransaction(tab, KeyOf(f, form_id)).Some? then tab
    else
      var row := TransactionRecord(|tab.transactions| + 1, MapTransaction(f, form_id, issuer_id, ind_id, codes));
      FirstWithAppend(tab.transactions, RowKey, row, KeyOf(f, form_id));
      assert (tab.transactions + [row])[..|tab.transactions|] == tab.transactions;
      tab.(transactions := tab.transactions + [row])
  }

  /** A transaction whose key is absent is appended, and is then the first row with that key. */
  lemma WithTransactionAppends(tab: Tables, f: FilingTransaction, form_id: int, issuer_id: int, ind_id: int,
                               codes: Relationship -> i32)
    requires StoredTransaction(tab, KeyOf(f, form_id)).None?
    ensures var row := TransactionRecord(|tab.transactions| + 1,
                         MapTransaction(f, form_id, issuer_id, ind_id, codes));
            WithTransaction(tab, f, form_id, issuer_id, ind_id, codes)
              == tab.(transactions := tab.transactions + [row])
            && FirstWith(tab.transactions + [row], RowKey, KeyOf(f, form_id)) == Some(|tab.transactions|)
  {
    var row := TransactionRecord(|tab.transactions| + 1, MapTransaction(f, form_id, issuer_id, ind_id, codes));
    assert RowKey(row) == KeyOf(f, form_id);
    FirstWithAppend(tab.transactions, RowKey, row, KeyOf(f, form_id));
  }

  /** `m` holds every entry of `old_` with the same value. */
  ghost predicate Grows<V>(old_: map<string, V>, m: map<string, V>) {
    forall k :: k in old_ ==> k in m && m[k] == old_[k]
  }

  const IssuerFailed := "Failed to create issuer"
  const IndividualFailed := "Failed to create individual"
  const FormFailed := "Failed to create form"
  const TransactionFailed := "Failed to insert non-derivative transaction"

  /** The database the helper writes to. */
  class Store {
    var issuers: seq<IssuerRow>
    var individuals: seq<IndividualRow>
    var forms: seq<FormRow>
    var transactions: seq<TransactionRow>

    constructor ()
      ensures issuers == [] && individuals == [] && forms == [] && transactions == []
    {
      issuers := [];
      individuals := [];
      forms := [];
      transactions := [];
    }

    /** The tables as values. */
    function Snapshot(): Tables
      reads this
    {
      Tables(issuers, individuals, forms, transactions)
    }

    /**
     * The issuer, individual and form tables hold at most one row per key.
     * Transaction rows may share a key: lookups read the first of them.
     */
    ghost predicate Valid()
      reads this
    {
      Unique(issuers, IssuerCik) && Unique(individuals, IndividualCik)
      && Unique(forms, FormAccessNo)
    }

    /** `SELECT issuer_id FROM issuer WHERE cik = ..`, first row. */
    function IssuerId(cik: string): Option<int>
      reads this`issuers
    {
      IdIn(issuers, IssuerCik, IssuerRowId, cik)
    }

    function IndividualId(cik: string): Option<int>
      reads this`individuals
    {
      IdIn(individuals, IndividualCik, IndividualRowId, cik)
    }

    function FormId(access_no: string): Option<int>
      reads this`forms
    {
      IdIn(forms, FormAccessNo, FormRowId, access_no)
    }

    function TransactionWith(k: TransactionKey): Option<TransactionRow>
      reads this`transactions
    {
      match FirstWith(transactions, RowKey, k)
      case Some(i) => Some(transactions[i])
      case None => None
    }
  }

  /** `SqlHelper`: three key-to-id caches in front of the store. */
  class SqlHelper {
    var issuersCache: map<string, int>
    var formCache: map<string, int>
    var indCache: map<string, int>

    /** `SqlHelper::new`: all caches empty. */
    constructor ()
      ensures issuersCache == map[] && formCache == map[] && indCache == map[]
    {
      issuersCache := map[];
      formCache := map[];
      indCache := map[];
    }

    /** Every cached id is the id the store holds for that key. */
    ghost predicate Consistent(db: Store)
      reads this, db
    {
      Cached(issuersCache, db.issuers, IssuerCik, IssuerRowId)
      && Cached(indCache, db.individuals, IndividualCik, IndividualRowId)
      && Cached(formCache, db.forms, FormAccessNo, FormRowId)
    }

    /**
     * `create_issuer`, keyed by the issuer's CIK: the cached id; else the
     * stored id, which is then cached; else a new row is inserted and the
     * call fails.
     */
    method CreateIssuer(db: Store, f: FilingTransaction) returns (r: Outcome<int>)
      requires db.Valid() && Consistent(db)
      modifies this, db
      ensures db.Valid() && Consistent(db)
      ensures db.Snapshot() == WithIssuer(old(db.Snapshot()), f)
      ensures r.Ok? == StoredIssuer(old(db.Snapshot()), f.company_cik).Some?
      ensures r.Ok? ==> Some(r.value) == StoredIssuer(old(db.Snapshot()), f.company_cik)
      ensures Grows(old(issuersCache), issuersCache)
      ensures formCache == old(formCache) && indCache == old(indCache)
      ensures db.individuals == old(db.individuals) && db.forms == old(db.forms)
              && db.transactions == old(db.transactions)
      ensures var cik := f.company_cik;
              if cik in old(issuersCache) then
                r == Ok(old(issuersCache)[cik]) && issuersCache == old(issuersCache)
                && db.issuers == old(db.issuers)
              else if old(db.IssuerId(cik)).Some? then
                r == Ok(old(db.IssuerId(cik)).value)
                && issuersCache == old(issuersCache)[cik := r.value]
                && db.issuers == old(db.issuers)
              else
                r == Err(IssuerFailed) && issuersCache == old(issuersCache)
                && db.issuers == old(db.issuers) + [IssuerRow(|old(db.issuers)| + 1, f.company, f.symbol, cik)]
                && db.IssuerId(cik) == Some(|old(db.issuers)| + 1)
    {
      var issuer := MapIssuer(f);
      if issuer.cik in issuersCache {
        return Ok(issuersCache[issuer.cik]);
      }
      var found := db.IssuerId(issuer.cik);
      if found.Some? {
        CachedStore(issuersCache, db.issuers, IssuerCik, IssuerRowId, issuer.cik);
        issuersCache := issuersCache[issuer.cik := found.value];
        return Ok(found.value);
      }
      var row := IssuerRow(|db.issuers| + 1, issuer.issuer_name, issuer.issuer_symbol, issuer.cik);
      CachedAppend(issuersCache, db.issuers, IssuerCik, IssuerRowId, row);
      UniqueAppend(db.issuers, IssuerCik, row);
      db.issuers := db.issuers + [row];
      return Err(IssuerFailed);
    }

    /**
     * `create_individual`, keyed by the owner's CIK; a missing first or
     * last name is stored as the empty text.
     */
    method CreateIndividual(db: Store, f: FilingTransaction) returns (r: Outcome<int>)
      requires db.Valid() && Consistent(db)
      modifies this, db
      ensures db.Valid() && Consistent(db)
      ensures db.Snapshot() == WithIndividual(old(db.Snapshot()), f)
      ensures r.Ok? == StoredIndividual(old(db.Snapshot()), f.owner_cik).Some?
      ensures r.Ok? ==> Some(r.value) == StoredIndividual(old(db.Snapshot()), f.owner_cik)
      ensures Grows(old(indCache), indCache)
      ensures issuersCache == old(issuersCache) && formCache == old(formCache)
      ensures db.issuers == old(db.issuers) && db.forms == old(db.forms)
              && db.transactions == old(db.transactions)
      ensures var cik := f.owner_cik;
              var ind := MapIndividual(f);
              if cik in old(indCache) then
                r == Ok(old(indCache)[cik]) && indCache == old(indCache)
                && db.individuals == old(db.individuals)
              else if old(db.IndividualId(cik)).Some? then
                r == Ok(old(db.IndividualId(cik)).value)
                && indCache == old(indCache)[cik := r.value]
                && db.individuals == old(db.individuals)
              else
                r == Err(IndividualFailed) && indCache == old(indCache)
                && db.individuals == old(db.individuals)
                   + [IndividualRow(|old(db.individuals)| + 1, cik, f.owner,
                        OrEmpty(ind.first_name), OrEmpty(ind.last_name))]
                && db.IndividualId(cik) == Some(|old(db.individuals)| + 1)
    {
      var ind := MapIndividual(f);
      if ind.cik in indCache {
        return Ok(indCache[ind.cik]);
      }
      var found := db.IndividualId(ind.cik);
      if found.Some? {
        CachedStore(indCache, db.individuals, IndividualCik, IndividualRowId, ind.cik);
        indCache := indCache[ind.cik := found.value];
        return Ok(found.value);
      }
      var row := IndividualRow(|db.individuals| + 1, ind.cik, ind.full_name,
                               OrEmpty(ind.first_name), OrEmpty(ind.last_name));
      CachedAppend(indCache, db.individuals, IndividualCik, IndividualRowId, row);
      UniqueAppend(db.individuals, IndividualCik, row);
      db.individuals := db.individuals + [row];
      return Err(IndividualFailed);
    }

    /** `create_form`, keyed by the accession number. */
    method CreateForm(db: Store, f: FilingTransaction, issuer_id: int) returns (r: Outcome<int>)
      requires db.Valid() && Consistent(db)
      modifies this, db
      ensures db.Valid() && Consistent(db)
      ensures db.Snapshot() == WithForm(old(db.Snapshot()), f, issuer_id)
      ensures r.Ok? == StoredForm(old(db.Snapshot()), f.access_no).Some?
      ensures r.Ok? ==> Some(r.value) == StoredForm(old(db.Snapshot()), f.access_no)
      ensures Grows(old(formCache), formCache)
      ensures issuersCache == old(issuersCache) && indCache == old(indCache)
      ensures db.issuers == old(db.issuers) && db.individuals == old(db.individuals)
              && db.transactions == old(db.transactions)
      ensures var key := f.access_no;
              if key in old(formCache) then
                r == Ok(old(formCache)[key]) && formCache == old(formCache)
                && db.forms == old(db.forms)
              else if old(db.FormId(key)).Some? then
                r == Ok(old(db.FormId(key)).value)
                && formCache == old(formCache)[key := r.value]
                && db.forms == old(db.forms)
              else
                r == Err(FormFailed) && formCache == old(formCache)
                && db.forms == old(db.forms)
                   + [FormRow(|old(db.forms)| + 1, issuer_id, f.form_date, f.form_type,
                              f.form_url, f.web_url, key)]
                && db.FormId(key) == Some(|old(db.forms)| + 1)
    {
      var form := MapForm(f, issuer_id);
      if form.access_no in formCache {
        return Ok(formCache[form.access_no]);
      }
      var found := db.FormId(form.access_no);
      if found.Some? {
        CachedStore(formCache, db.forms, FormAccessNo, FormRowId, form.access_no);
        formCache := formCache[form.access_no := found.value];
        return Ok(found.value);
      }
      var row := FormRow(|db.forms| + 1, form.issuer_id, form.date_reported, form.form_type,
                         form.txt_url, form.web_url, form.access_no);
      CachedAppend(formCache, db.forms, FormAccessNo, FormRowId, row);
      UniqueAppend(db.forms, FormAccessNo, row);
      db.forms := db.forms + [row];
      return Err(FormFailed);
    }

    /**
     * `insert_nonderiv`: the stored row with the same form, date and shares
     * balance, or else a new row, read back by the same key. The caches are
     * neither read nor written.
     */
    method InsertNonDeriv(db: Store, f: FilingTransaction, form_id: int, issuer_id: int, ind_id: int,
                          codes: Relationship -> i32) returns (r: Outcome<NonDerivTransaction>)
      requires db.Valid() && Consistent(db)
      modifies db
      ensures db.Valid() && Consistent(db)
      ensures db.Snapshot() == WithTransaction(old(db.Snapshot()), f, form_id, issuer_id, ind_id, codes)
      ensures db.issuers == old(db.issuers) && db.individuals == old(db.individuals)
              && db.forms == old(db.forms)
      ensures var key := TransactionKey(form_id, f.trans_date, f.shares_owned);
              if old(db.TransactionWith(key)).Some? then
                r == Ok(FromRow(old(db.TransactionWith(key)).value))
                && db.transactions == old(db.transactions)
              else
                var row := TransactionRecord(|old(db.transactions)| + 1,
                             MapTransaction(f, form_id, issuer_id, ind_id, codes));
                db.transactions == old(db.transactions) + [row]
                && r == Ok(FromRow(row))
      ensures old(db.TransactionWith(TransactionKey(form_id, f.trans_date, f.shares_owned))).None? ==>
                r.value.relationships == RelationshipCodes(f.relationship, codes)
                && r.value.transaction_id == |old(db.transactions)| + 1
      ensures db.TransactionWith(TransactionKey(form_id, f.trans_date, f.shares_owned)).Some?
    {
      var t := MapTransaction(f, form_id, issuer_id, ind_id, codes);
      var key := TransactionKey(form_id, f.trans_date, t.shares_balance);
      var existing := db.TransactionWith(key);
      if existing.Some? {
        return Ok(FromRow(existing.value));
      }
      var row := TransactionRecord(|db.transactions| + 1, t);
      WithTransactionAppends(db.Snapshot(), f, form_id, issuer_id, ind_id, codes);
      db.transactions := db.transactions + [row];
      var requeried := db.TransactionWith(key);
      ParseCodesText(t.relationships);
      if requeried.Some? {
        return Ok(FromRow(requeried.value));
      }
      return Err(TransactionFailed);
    }
  }

  /** `Option::unwrap_or_default` on a text. */
  function OrEmpty(s: Option<string>): string {
    match s
    case Some(v) => v
    case None => ""
  }

  /**
   * A transaction row written by an insert reads back as the transaction
   * that was written: every column, the three codes and the relationship
   * codes in order.
   */
  lemma ReadBackRow(id: int, t: NewNonDerivTransaction)
    requires t.action_code.Some? && t.ownership_code.Some? && t.transaction_code.Some?
    ensures FromRow(TransactionRecord(id, t))
         == NonDerivTransaction(id, t.date_reported, t.form_id, t.issuer_id, t.individual_id,
                                t.action_code, t.ownership_code, t.transaction_code,
                                t.shares_balance, t.shares_traded, t.avg_price, t.amount,
                                t.relationships)
  {
    ParseCodesText(t.relationships);
  }

  /** The row an insert of `t` stores under the id `id`. */
  function TransactionRecord(id: int, t: NewNonDerivTransaction): TransactionRow {
    TransactionRow(id, t.date_reported, t.form_id, t.issuer_id, t.individual_id,
                   OrEmpty(t.action_code), OrEmpty(t.ownership_code), OrEmpty(t.transaction_code),
                   t.shares_balance, t.shares_traded, t.avg_price, t.amount,
                   CodesText(t.relationships))
  }
}
