/**
 * The rows the persistence pipeline writes, built from one extracted
 * transaction.
 */
module InsertModels {
  import opened Wrappers
  import opened Strings
  import opened Numbers
  import opened Calendar
  import opened Models
  import opened AtomFilings

  datatype NewIssuer = NewIssuer(issuer_name: string, issuer_symbol: string, cik: string)

  datatype NewIndividual = NewIndividual(
    full_name: string, cik: string, first_name: Option<string>, last_name: Option<string>)

  datatype NewForm = NewForm(
    issuer_id: int, date_reported: Date, form_type: string,
    txt_url: string, web_url: string, access_no: string)

  datatype NewNonDerivTransaction = NewNonDerivTransaction(
    date_reported: Date, form_id: int, issuer_id: int, individual_id: int,
    action_code: Option<string>, ownership_code: Option<string>, transaction_code: Option<string>,
    shares_balance: real, shares_traded: real, avg_price: real, amount: real,
    relationships: seq<i32>)

  /** `NewIssuer::map`: the issuer's name, symbol and CIK. */
  function MapIssuer(f: FilingTransaction): (r: NewIssuer)
    ensures r.issuer_name == f.company && r.issuer_symbol == f.symbol && r.cik == f.company_cik
  {
    NewIssuer(f.company, f.symbol, f.company_cik)
  }

  /**
   * `NewIndividual::map`: the owner's name split on single spaces; with two
   * or more pieces the first is the last name and the rest, joined by
   * spaces again, the first name; otherwise neither is known.
   */
  function MapIndividual(f: FilingTransaction): (r: NewIndividual)
    ensures r.full_name == f.owner && r.cik == f.owner_cik
    ensures r.last_name.Some? <==> ' ' in f.owner
    ensures r.first_name.Some? <==> r.last_name.Some?
    ensures r.last_name.Some? ==> ' ' !in r.last_name.value
                                  && r.last_name.value + " " + r.first_name.value == f.owner
  {
    var parts := Split(f.owner, ' ');
    if |parts| >= 2 then
      assert Join(parts, " ") == parts[0] + " " + Join(parts[1..], " ");
      assert ' ' !in parts[0];
      NewIndividual(f.owner, f.owner_cik, Some(Join(parts[1..], " ")), Some(parts[0]))
    else
      NewIndividual(f.owner, f.owner_cik, None, None)
  }

  /** `NewForm::map`: the filing's own fields under the given issuer id. */
  function MapForm(f: FilingTransaction, issuer_id: int): (r: NewForm)
    ensures r.issuer_id == issuer_id && r.date_reported == f.form_date && r.form_type == f.form_type
    ensures r.txt_url == f.form_url && r.web_url == f.web_url && r.access_no == f.access_no
  {
    NewForm(issuer_id, f.form_date, f.form_type, f.form_url, f.web_url, f.access_no)
  }

  /** The integer code of each relationship, in order. */
  function RelationshipCodes(rels: seq<Relationship>, codes: Relationship -> i32): (r: seq<i32>)
    ensures |r| == |rels|
    ensures forall k :: 0 <= k < |rels| ==> r[k] == codes(rels[k])
  {
    if rels == [] then [] else [codes(rels[0])] + RelationshipCodes(rels[1..], codes)
  }

  /**
   * `NewNonDerivTransaction::map`; `codes` gives each relationship's enum
   * discriminant, whose declaration is not part of this model.
   */
  function MapTransaction(f: FilingTransaction, form_id: int, issuer_id: int, individual_id: int,
                          codes: Relationship -> i32): (r: NewNonDerivTransaction)
    ensures r.relationships == RelationshipCodes(f.relationship, codes)
    ensures r.form_id == form_id && r.issuer_id == issuer_id && r.individual_id == individual_id
    ensures r.date_reported == f.trans_date && r.shares_balance == f.shares_owned
    ensures r.shares_traded == f.shares_traded && r.avg_price == f.avg_price && r.amount == f.amount
    ensures r.action_code == Some(f.action_code) && r.ownership_code == Some(f.ownership_code)
            && r.transaction_code == Some(f.trans_code)
    ensures |r.relationships| == |f.relationship|
    ensures f.amount == f.shares_traded * f.avg_price ==> r.amount == r.shares_traded * r.avg_price
  {
    NewNonDerivTransaction(
      f.trans_date, form_id, issuer_id, individual_id,
      Some(f.action_code), Some(f.ownership_code), Some(f.trans_code),
      f.shares_owned, f.shares_traded, f.avg_price, f.amount,
      RelationshipCodes(f.relationship, codes))
  }

  /** Two transactions that carry the same header map to the same issuer, individual and form rows. */
  lemma SameHeaderSameRows(h: Header, url: string, t1: FilingTransaction, t2: FilingTransaction, issuer_id: int)
    requires Carries(h, url, t1) && Carries(h, url, t2)
    ensures SameRows(t1, t2, issuer_id)
  {
  }

  /** `t1` and `t2` map to the same issuer, individual and form rows. */
  predicate SameRows(t1: FilingTransaction, t2: FilingTransaction, issuer_id: int) {
    MapIssuer(t1) == MapIssuer(t2) && MapIndividual(t1) == MapIndividual(t2)
    && MapForm(t1, issuer_id) == MapForm(t2, issuer_id)
  }

  /**
   * The transactions of one filing all map to the same issuer row, the same
   * individual row and the same form row, and that form row holds the
   * filing's URL and accession number.
   */
  lemma OneFilingOneIssuerOneForm(url: string, xml: string, parse: string -> Option<Element>, issuer_id: int)
    requires Extraction(url, xml, parse).Ok?
    ensures var txs := Extraction(url, xml, parse).value;
            forall t1, t2 :: t1 in txs && t2 in txs ==> SameRows(t1, t2, issuer_id)
    ensures var txs := Extraction(url, xml, parse).value;
            forall t :: t in txs ==>
              MapForm(t, issuer_id).txt_url == url
              && MapForm(t, issuer_id).access_no == AccessNum(url).value
  {
    var txs := Extraction(url, xml, parse).value;
    var h := ExtractionHeader(url, xml, parse);
    forall t1, t2 | t1 in txs && t2 in txs ensures SameRows(t1, t2, issuer_id) {
      SameHeaderSameRows(h, url, t1, t2, issuer_id);
    }
  }

  /** The header every transaction of a successful extraction carries. */
  lemma ExtractionHeader(url: string, xml: string, parse: string -> Option<Element>) returns (h: Header)
    requires Extraction(url, xml, parse).Ok?
    ensures h.access_no == AccessNum(url).value
    ensures forall t :: t in Extraction(url, xml, parse).value ==> Carries(h, url, t)
  {
    var root := parse(xml).value;
    h := ReadHeader(url, root).value;
    ExtractionOfTable(url, xml, parse, h);
    ReadRecordsShareHeader(h, url, TableOf(root).children);
  }

  /** Each row's amount is the product of its shares traded and average price. */
  lemma TransactionRowAmount(url: string, xml: string, parse: string -> Option<Element>,
                             form_id: int, issuer_id: int, individual_id: int, codes: Relationship -> i32)
    requires Extraction(url, xml, parse).Ok?
    ensures forall t :: t in Extraction(url, xml, parse).value ==>
              var row := MapTransaction(t, form_id, issuer_id, individual_id, codes);
              row.amount == row.shares_traded * row.avg_price
  {
    ExtractionRecords(url, xml, parse);
  }
}
