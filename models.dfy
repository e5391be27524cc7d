/**
 * The records that flow through the miner: one parsed Form-4 transaction,
 * the relationship flags of its reporting owner, and an entry of the daily
 * index. Their Rust definitions (`src/secgov/models.rs`,
 * `src/secgov/parser/index.rs`) are not part of this model; the fields are
 * those the core reads and writes.
 */
module Models {
  import opened Calendar

  /** How the reporting owner relates to the issuer. */
  datatype Relationship = DIRECTOR | OFFICER | TENPERC | OTHER

  /** One non-derivative transaction of a filing, with the filing's own fields. */
  datatype FilingTransaction = FilingTransaction(
    web_url: string,
    form_url: string,
    access_no: string,
    form_date: Date,
    company_cik: string,
    owner_cik: string,
    form_type: string,
    company: string,
    symbol: string,
    owner: string,
    shares_traded: real,
    avg_price: real,
    amount: real,
    shares_owned: real,
    trans_date: Date,
    relationship: seq<Relationship>,
    action_code: string,
    ownership_code: string,
    trans_code: string
  )

  /** A line of the daily master index; only the document path is used here. */
  datatype IndexEntry = IndexEntry(filepath: string)
}
