/**
 * `load_mcq_bank` once the CSV text has been read: each row, a map from
 * column name to cell text, becomes a question record appended to the list
 * of its domain.
 */
module McqBank {
  import opened Wrappers

  /** One question record; `options` holds the cells of columns A, B, C and D. */
  datatype Mcq = Mcq(question: string, options: seq<string>, answer: string, difficulty: string)

  /** A row as `csv.DictReader` yields it. */
  type CsvRow = map<string, string>

  /** Questions grouped by domain, each list in row order. */
  type Bank = map<string, seq<Mcq>>

  /** The columns a row is read from, in the order the source reads them. */
  const RequiredColumns: seq<string> := ["Domain", "Question", "A", "B", "C", "D", "Answer"]

  predicate HasRequiredColumns(row: CsvRow) {
    "Domain" in row && "Question" in row && "A" in row && "B" in row && "C" in row && "D" in row
    && "Answer" in row
  }

  /** The first of `columns` that `row` lacks, if any. */
  function FirstMissing(row: CsvRow, columns: seq<string>): (r: Option<string>)
    ensures r.None? <==> forall i :: 0 <= i < |columns| ==> columns[i] in row
    ensures r.Some? ==> exists i :: 0 <= i < |columns| && columns[i] == r.value
                          && r.value !in row && forall j :: 0 <= j < i ==> columns[j] in row
  {
    if columns == [] then None
    else if columns[0] !in row then Some(columns[0])
    else
      var rest := FirstMissing(row, columns[1..]);
      if rest.Some? then
        var i :| 0 <= i < |columns[1..]| && columns[1..][i] == rest.value
                 && rest.value !in row && forall j :: 0 <= j < i ==> columns[1..][j] in row;
        assert columns[i + 1] == rest.value;
        rest
      else
        rest
  }

  /** The domain and record of one row, or the KeyError of the first
      required column it lacks; Difficulty is optional. */
  function ParseRow(row: CsvRow): (r: Result<(string, Mcq)>)
    ensures r.Ok? <==> HasRequiredColumns(row)
    ensures r.Err? ==> r.error.KeyError? && r.error.key in RequiredColumns && r.error.key !in row
    ensures r.Err? ==> FirstMissing(row, RequiredColumns) == Some(r.error.key)
    ensures r.Ok? ==> && r.value.0 == row["Domain"]
                      && r.value.1.question == row["Question"]
                      && r.value.1.options == [row["A"], row["B"], row["C"], row["D"]]
                      && r.value.1.answer == row["Answer"]
    ensures r.Ok? ==> r.value.1.difficulty == if "Difficulty" in row then row["Difficulty"] else "Beginner"
  {
    match FirstMissing(row, RequiredColumns)
    case Some(column) =>
      assert !HasRequiredColumns(row) by {
        var i :| 0 <= i < |RequiredColumns| && RequiredColumns[i] == column && column !in row;
      }
      Err(KeyError(column))
    case None =>
      assert RequiredColumns[0] in row && RequiredColumns[1] in row && RequiredColumns[2] in row;
      assert RequiredColumns[3] in row && RequiredColumns[4] in row && RequiredColumns[5] in row;
      assert RequiredColumns[6] in row;
      var difficulty := if "Difficulty" in row then row["Difficulty"] else "Beginner";
      Ok((row["Domain"], Mcq(row["Question"], [row["A"], row["B"], row["C"], row["D"]], row["Answer"], difficulty)))
  }

  predicate AllParse(rows: seq<CsvRow>) {
    forall i :: 0 <= i < |rows| ==> ParseRow(rows[i]).Ok?
  }

  /** The (domain, record) pairs of rows that all parse. */
  function Entries(rows: seq<CsvRow>): (es: seq<(string, Mcq)>)
    requires AllParse(rows)
    ensures |es| == |rows|
    ensures forall i :: 0 <= i < |rows| ==> es[i] == ParseRow(rows[i]).value
  {
    seq(|rows|, i requires 0 <= i < |rows| => ParseRow(rows[i]).value)
  }

  /** Parsing one more row appends its entry. */
  lemma EntriesSnoc(rows: seq<CsvRow>, i: nat)
    requires i < |rows| && AllParse(rows[..i]) && ParseRow(rows[i]).Ok?
    ensures AllParse(rows[..i + 1])
    ensures Entries(rows[..i + 1]) == Entries(rows[..i]) + [ParseRow(rows[i]).value]
    ensures Grouped(Entries(rows[..i + 1])) ==
              var (domain, mcq) := ParseRow(rows[i]).value;
              var bank := Grouped(Entries(rows[..i]));
              bank[domain := GenerateMcqs(domain, bank) + [mcq]]
  {
    assert rows[..i + 1][..i] == rows[..i];
    var es := Entries(rows[..i + 1]);
    assert es[..i] == Entries(rows[..i]);
  }

  /** `generate_mcqs`: `bank.get(domain, [])`, the domain's list or no question. */
  function GenerateMcqs(domain: string, bank: Bank): (mcqs: seq<Mcq>)
    ensures domain in bank ==> mcqs == bank[domain]
    ensures domain !in bank ==> mcqs == []
  {
    if domain in bank then bank[domain] else []
  }

  /** `bank.setdefault(domain, []).append(mcq)` applied to the entries in order. */
  function Grouped(es: seq<(string, Mcq)>): (bank: Bank)
    ensures forall d :: d in bank ==> bank[d] != []
  {
    if es == [] then map[]
    else
      var bank := Grouped(es[..|es| - 1]);
      var (domain, mcq) := es[|es| - 1];
      bank[domain := GenerateMcqs(domain, bank) + [mcq]]
  }

  /** The records of `domain`, in entry order: the reference for the grouping. */
  function ForDomain(es: seq<(string, Mcq)>, domain: string): seq<Mcq> {
    if es == [] then []
    else ForDomain(es[..|es| - 1], domain) + (if es[|es| - 1].0 == domain then [es[|es| - 1].1] else [])
  }

  /** `load_mcq_bank` after reading: the bank, or the KeyError of the first
      row that lacks a required column. */
  method LoadMcqBank(rows: seq<CsvRow>) returns (r: Result<Bank>)
    ensures r.Ok? <==> AllParse(rows)
    ensures r.Ok? ==> AllParse(rows) && r.value == Grouped(Entries(rows))
    ensures r.Err? ==> exists i :: 0 <= i < |rows| && ParseRow(rows[i]) == Err(r.error)
                                   && forall j :: 0 <= j < i ==> ParseRow(rows[j]).Ok?
  {
    var bank: Bank := map[];
    for i := 0 to |rows|
      invariant forall j :: 0 <= j < i ==> ParseRow(rows[j]).Ok?
      invariant AllParse(rows[..i]) && bank == Grouped(Entries(rows[..i]))
    {
      var parsed := ParseRow(rows[i]);
      if parsed.Err? {
        return Err(parsed.error);
      }
      var (domain, mcq) := parsed.value;
      EntriesSnoc(rows, i);
      bank := bank[domain := GenerateMcqs(domain, bank) + [mcq]];
    }
    assert rows[..|rows|] == rows;
    return Ok(bank);
  }

  /** Every row lands in its domain's list, in row order: the bank's lookup
      of any domain is the records of that domain's rows. */
  lemma {:induction false} GroupedIsFilter(es: seq<(string, Mcq)>, domain: string)
    ensures GenerateMcqs(domain, Grouped(es)) == ForDomain(es, domain)
    ensures domain in Grouped(es) <==> exists i :: 0 <= i < |es| && es[i].0 == domain
  {
    if es != [] {
      var init := es[..|es| - 1];
      GroupedIsFilter(init, domain);
      if domain in Grouped(init) {
        var i :| 0 <= i < |init| && init[i].0 == domain;
        assert es[i].0 == domain;
      }
      if exists i :: 0 <= i < |es| && es[i].0 == domain {
        var i :| 0 <= i < |es| && es[i].0 == domain;
        if i < |init| {
          assert init[i].0 == domain;
        }
      }
    }
  }

  /** The total number of records in a bank. */
  ghost function TotalEntries(bank: Bank): nat
    decreases |bank|
  {
    if bank == map[] then 0
    else
      var d := Pick(bank);
      assert (bank - {d}).Keys == bank.Keys - {d};
      |bank[d]| + TotalEntries(bank - {d})
  }

  ghost function Pick(bank: Bank): (d: string)
    requires bank != map[]
    ensures d in bank
  {
    assert exists d :: d in bank by {
      var k :| k in bank.Keys;
    }
    var d :| d in bank; d
  }

  /** The total may be summed starting from any domain. */
  lemma {:induction false} TotalWithout(bank: Bank, d: string)
    requires d in bank
    ensures TotalEntries(bank) == |bank[d]| + TotalEntries(bank - {d})
    decreases |bank|
  {
    var p := Pick(bank);
    if p != d {
      assert (bank - {p}).Keys == bank.Keys - {p};
      assert (bank - {d}).Keys == bank.Keys - {d};
      TotalWithout(bank - {p}, d);
      TotalWithout(bank - {d}, p);
      assert bank - {p} - {d} == bank - {d} - {p};
    }
  }

  /** Appending one record to one domain adds one to the total. */
  lemma TotalAppend(bank: Bank, d: string, mcq: Mcq)
    ensures TotalEntries(bank[d := GenerateMcqs(d, bank) + [mcq]]) == TotalEntries(bank) + 1
  {
    var updated := bank[d := GenerateMcqs(d, bank) + [mcq]];
    TotalWithout(updated, d);
    assert updated - {d} == bank - {d};
    if d in bank {
      TotalWithout(bank, d);
    } else {
      assert bank - {d} == bank;
    }
  }

  /** No row is lost or duplicated: the bank holds one record per row. */
  lemma {:induction false} GroupedTotal(es: seq<(string, Mcq)>)
    ensures TotalEntries(Grouped(es)) == |es|
  {
    if es != [] {
      GroupedTotal(es[..|es| - 1]);
      TotalAppend(Grouped(es[..|es| - 1]), es[|es| - 1].0, es[|es| - 1].1);
    }
  }

  /** Every record a loaded bank holds for a domain is the record of a row of
      that domain, so it has four options and its row's difficulty, or
      "Beginner" when the row has none. */
  lemma BankRecords(rows: seq<CsvRow>, domain: string, k: nat)
    requires AllParse(rows)
    requires k < |GenerateMcqs(domain, Grouped(Entries(rows)))|
    ensures exists i :: 0 <= i < |rows| && rows[i]["Domain"] == domain
              && GenerateMcqs(domain, Grouped(Entries(rows)))[k] == ParseRow(rows[i]).value.1
  {
    GroupedIsFilter(Entries(rows), domain);
    ForDomainMember(Entries(rows), domain, k);
  }

  /** Each record of a domain's list comes from an entry of that domain. */
  lemma {:induction false} ForDomainMember(es: seq<(string, Mcq)>, domain: string, k: nat)
    requires k < |ForDomain(es, domain)|
    ensures exists i :: 0 <= i < |es| && es[i].0 == domain && ForDomain(es, domain)[k] == es[i].1
  {
    var init := es[..|es| - 1];
    if k < |ForDomain(init, domain)| {
      ForDomainMember(init, domain, k);
      var i :| 0 <= i < |init| && init[i].0 == domain && ForDomain(init, domain)[k] == init[i].1;
      assert es[i] == init[i];
    } else {
      assert es[|es| - 1].0 == domain;
    }
  }
}
