/**
 * The relationship list of a stored transaction row: written as the
 * comma-joined decimal codes and read back by splitting on `,`, trimming
 * each piece and keeping the pieces that parse as `i32`.
 */
module QueryModels {
  import opened Wrappers
  import opened Strings
  import opened Numbers
  import opened Calendar

  /** A stored `non_deriv_transaction` row; `relationships` holds the text the writer stored. */
  datatype TransactionRow = TransactionRow(
    transaction_id: int, date_reported: Date, form_id: int, issuer_id: int, individual_id: int,
    action_code: string, ownership_code: string, transaction_code: string,
    shares_balance: real, shares_traded: real, avg_price: real, amount: real,
    relationships: string)

  /** `NonDerivTransaction`: a row as the pipeline reads it back. */
  datatype NonDerivTransaction = NonDerivTransaction(
    transaction_id: int, date_reported: Date, form_id: int, issuer_id: int, individual_id: int,
    action_code: Option<string>, ownership_code: Option<string>, transaction_code: Option<string>,
    shares_balance: real, shares_traded: real, avg_price: real, amount: real,
    relationships: seq<i32>)

  /**
   * `NonDerivTransaction::from_row`: the columns as they are, the codes
   * wrapped in `Some`, and the relationship text parsed by `ParseCodes`.
   */
  function FromRow(row: TransactionRow): (r: NonDerivTransaction)
    ensures r.transaction_id == row.transaction_id && r.date_reported == row.date_reported
    ensures r.form_id == row.form_id && r.issuer_id == row.issuer_id && r.individual_id == row.individual_id
    ensures r.action_code == Some(row.action_code) && r.ownership_code == Some(row.ownership_code)
            && r.transaction_code == Some(row.transaction_code)
    ensures r.shares_balance == row.shares_balance && r.shares_traded == row.shares_traded
            && r.avg_price == row.avg_price && r.amount == row.amount
    ensures r.relationships == ParseCodes(row.relationships)
  {
    NonDerivTransaction(
      row.transaction_id, row.date_reported, row.form_id, row.issuer_id, row.individual_id,
      Some(row.action_code), Some(row.ownership_code), Some(row.transaction_code),
      row.shares_balance, row.shares_traded, row.avg_price, row.amount,
      ParseCodes(row.relationships))
  }

  /** One piece of the column: trimmed and parsed as an `i32`. */
  function PieceCode(piece: string): Option<i32> {
    ParseI32(Trim(piece))
  }

  /** The codes of those pieces that, trimmed, parse as `i32`, in order. */
  function KeepCodes(pieces: seq<string>): (r: seq<i32>)
    ensures |r| <= |pieces|
  {
    Keep(PieceCode, pieces)
  }

  /** The values `read` finds in the pieces, in order, skipping those it rejects. */
  function Keep(read: string -> Option<i32>, pieces: seq<string>): (r: seq<i32>)
    ensures |r| <= |pieces|
  {
    if pieces == [] then []
    else
      match read(pieces[0])
      case Some(x) => [x] + Keep(read, pieces[1..])
      case None => Keep(read, pieces[1..])
  }

  /** The relationship parser of `NonDerivTransaction::from_row`. */
  function ParseCodes(s: string): (r: seq<i32>)
    ensures |r| <= Count(s, ',') + 1
  {
    KeepCodes(Split(s, ','))
  }

  /** What the writer puts in the column: `codes.map(to_string).join(",")`. */
  function CodesText(xs: seq<i32>): string {
    Join(Displays(xs), ",")
  }

  function Displays(xs: seq<i32>): (r: seq<string>)
    ensures |r| == |xs|
    ensures forall k :: 0 <= k < |xs| ==> r[k] == IntToString(xs[k])
  {
    if xs == [] then [] else [IntToString(xs[0])] + Displays(xs[1..])
  }

  /** Pieces are read independently, so the codes of two runs of pieces follow each other. */
  lemma KeepCodesAppend(a: seq<string>, b: seq<string>)
    ensures KeepCodes(a + b) == KeepCodes(a) + KeepCodes(b)
  {
    KeepAppend(PieceCode, a, b);
  }

  lemma {:induction false} KeepAppend(read: string -> Option<i32>, a: seq<string>, b: seq<string>)
    ensures Keep(read, a + b) == Keep(read, a) + Keep(read, b)
  {
    if a != [] {
      assert (a + b)[1..] == a[1..] + b;
      assert (a + b)[0] == a[0];
      KeepAppend(read, a[1..], b);
    } else {
      assert a + b == b;
    }
  }

  /** Pieces that all read as the given values keep exactly those values. */
  lemma {:induction false} KeepAll(read: string -> Option<i32>, pieces: seq<string>, xs: seq<i32>)
    requires |pieces| == |xs|
    requires forall k :: 0 <= k < |pieces| ==> read(pieces[k]) == Some(xs[k])
    ensures Keep(read, pieces) == xs
  {
    if pieces != [] {
      KeepAll(read, pieces[1..], xs[1..]);
      assert [xs[0]] + xs[1..] == xs;
    }
  }

  /** A text with no comma is one piece, read on its own. */
  lemma ParseOnePiece(s: string)
    requires ',' !in s
    ensures ParseCodes(s) == KeepCodes([s])
  {
    var parts := Split(s, ',');
    assert |parts| == 1;
    assert Join(parts, [',']) == parts[0];
  }

  /** The empty column reads as the empty list. */
  lemma ParseEmpty()
    ensures ParseCodes("") == []
  {
    assert Split("", ',') == [""];
    assert Trim("") == "";
    assert PieceCode("") == None;
    assert [""][1..] == [];
  }

  /** Spaces around the codes are tolerated: ` 1, 2` reads as `[1, 2]`, and so for any two digits. */
  lemma ParseSpaced(c1: char, c2: char)
    requires IsDigit(c1) && IsDigit(c2)
    ensures ParseCodes([' ', c1, ',', ' ', c2]) == [DigitValue(c1), DigitValue(c2)]
  {
    SpacedPieces(c1, c2);
    SpacedCodes(c1, c2);
  }

  lemma SpacedPieces(c1: char, c2: char)
    requires IsDigit(c1) && IsDigit(c2)
    ensures Split([' ', c1, ',', ' ', c2], ',') == [[' ', c1], [' ', c2]]
  {
    var parts := [[' ', c1], [' ', c2]];
    assert NoneContains(parts, ',') by {
      assert ',' !in parts[0] && ',' !in parts[1];
    }
    assert Join(parts, [',']) == [' ', c1, ',', ' ', c2] by {
      assert Join(parts[1..], [',']) == [' ', c2];
    }
    SplitJoin(parts, ',');
  }

  lemma SpacedCodes(c1: char, c2: char)
    requires IsDigit(c1) && IsDigit(c2)
    ensures KeepCodes([[' ', c1], [' ', c2]]) == [DigitValue(c1), DigitValue(c2)]
  {
    SpacedDigit(c1);
    SpacedDigit(c2);
    KeepTwo(PieceCode, [' ', c1], [' ', c2], DigitValue(c1), DigitValue(c2));
  }

  lemma KeepTwo(read: string -> Option<i32>, p: string, q: string, x: i32, y: i32)
    requires read(p) == Some(x) && read(q) == Some(y)
    ensures Keep(read, [p, q]) == [x, y]
  {
    KeepCons(read, q, []);
    assert [q] + [] == [q];
    KeepCons(read, p, [q]);
    assert [p] + [q] == [p, q];
  }

  /** How the first piece contributes. */
  lemma KeepCons(read: string -> Option<i32>, p: string, rest: seq<string>)
    ensures read(p).Some? ==> Keep(read, [p] + rest) == [read(p).value] + Keep(read, rest)
    ensures read(p).None? ==> Keep(read, [p] + rest) == Keep(read, rest)
  {
    assert ([p] + rest)[0] == p && ([p] + rest)[1..] == rest;
  }

  lemma SpacedDigit(c: char)
    requires IsDigit(c)
    ensures PieceCode([' ', c]) == Some(DigitValue(c))
  {
    TrimSpaceDigit(c);
    ParseDigit(c);
  }

  lemma ParseDigit(c: char)
    requires IsDigit(c)
    ensures ParseI32([c]) == Some(DigitValue(c))
  {
    assert [c][..0] == [];
    assert DigitsValue([c]) == DigitValue(c);
  }

  lemma TrimSpaceDigit(c: char)
    requires IsDigit(c)
    ensures Trim([' ', c]) == [c]
  {
    assert !IsWhitespace(c);
    TrimStartSpace(c);
    TrimEndOne(c);
  }

  lemma TrimStartSpace(c: char)
    requires !IsWhitespace(c)
    ensures TrimStart([' ', c]) == [c]
  {
    assert [' ', c][1..] == [c];
    assert TrimStart([c]) == [c];
  }

  lemma TrimEndOne(c: char)
    requires !IsWhitespace(c)
    ensures TrimEnd([c]) == [c]
  {
  }

  /** The display of an integer holds no comma and no surrounding whitespace. */
  lemma DisplayShape(x: int)
    ensures ',' !in IntToString(x)
    ensures IsTrimmed(IntToString(x))
  {
    if x < 0 {
      assert IntToString(x) == "-" + NatToString(-x);
    }
  }

  /** Every list of `i32`s reads back from the text the writer stores for it. */
  lemma ParseCodesText(xs: seq<i32>)
    ensures ParseCodes(CodesText(xs)) == xs
  {
    var ds := Displays(xs);
    if xs == [] {
      ParseEmpty();
    } else {
      assert NoneContains(ds, ',') by {
        forall k | 0 <= k < |ds| ensures ',' !in ds[k] {
          DisplayShape(xs[k]);
        }
      }
      SplitJoin(ds, ',');
      KeepDisplays(xs);
    }
  }

  /** Keeping the codes of the displays of `xs` gives `xs`. */
  lemma KeepDisplays(xs: seq<i32>)
    ensures KeepCodes(Displays(xs)) == xs
  {
    var ds := Displays(xs);
    forall k | 0 <= k < |ds| ensures PieceCode(ds[k]) == Some(xs[k]) {
      DisplayShape(xs[k]);
      ParseI32OfDisplay(xs[k]);
    }
    KeepAll(PieceCode, ds, xs);
  }
}
