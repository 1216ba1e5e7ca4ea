/** Transactions, the month view of the ledger, its grouping by date label,
    removal from the pending list by id, and the copy the edit modal saves. */
module Ledger {
  import opened Options
  import opened Seqs
  import opened Calendar
  import opened Months

  datatype Kind = Expense | Income | Transfer

  /** A ledger entry. Items imported from the card also carry a merchant and a
      description; entries composed in the modals have neither. */
  datatype Transaction = Transaction(
    id: string,
    kind: Kind,
    amount: real,
    category: string,
    categoryKey: string,
    note: string,
    date: CalendarDate,
    excludeFromBudget: bool,
    merchant: Option<string>,
    description: Option<string>)

  // ------------------------------------------------------------ month view

  /** The month filter's test: the transaction's month index is the one the
      name maps to, and its year is the given year. */
  predicate InMonth(t: Transaction, monthName: string, year: int)
  {
    MonthIndex(monthName) == Some(t.date.month) && t.date.year == year
  }

  /** `getMonthTransactions`: the ledger entries of the named month and year,
      with the multiplicity and in the order they have in the ledger. */
  function MonthTransactions(txs: seq<Transaction>, monthName: string, year: int): (r: seq<Transaction>)
    ensures forall t :: t in r <==> t in txs && InMonth(t, monthName, year)
    ensures forall t :: multiset(r)[t] == if InMonth(t, monthName, year) then multiset(txs)[t] else 0
  {
    var keep := (t: Transaction) => InMonth(t, monthName, year);
    FilterContents(txs, keep);
    Filter(txs, keep)
  }

  /** The month view of a concatenation is the concatenation of the month
      views: the filter never reorders. */
  lemma MonthTransactionsAppend(a: seq<Transaction>, b: seq<Transaction>, monthName: string, year: int)
    ensures MonthTransactions(a + b, monthName, year)
            == MonthTransactions(a, monthName, year) + MonthTransactions(b, monthName, year)
  {
    FilterAppend(a, b, (t: Transaction) => InMonth(t, monthName, year));
  }

  /** A new entry at the head of the ledger shows at the head of the month
      view exactly when it falls in that month. */
  lemma MonthTransactionsPrepend(t: Transaction, txs: seq<Transaction>, monthName: string, year: int)
    ensures MonthTransactions([t] + txs, monthName, year)
            == (if InMonth(t, monthName, year) then [t] else []) + MonthTransactions(txs, monthName, year)
  {
    MonthTransactionsAppend([t], txs, monthName, year);
  }

  // -------------------------------------------------------------- grouping

  /** A labelled group of the month view. */
  datatype Group = Group(dateLabel: string, items: seq<Transaction>)

  /** The label the reduce computes for each transaction: its date label
      relative to `today`. */
  function DayLabeller(today: CalendarDate): Transaction -> string
  {
    (t: Transaction) => DateLabel(t.date, today)
  }

  /** The label of each transaction, in ledger order. */
  function Labels(txs: seq<Transaction>, labelOf: Transaction -> string): (r: seq<string>)
    ensures |r| == |txs|
    ensures forall i :: 0 <= i < |txs| ==> r[i] == labelOf(txs[i])
  {
    seq(|txs|, i requires 0 <= i < |txs| => labelOf(txs[i]))
  }

  /** The transactions carrying `dateLabel`, in ledger order. */
  function WithLabel(txs: seq<Transaction>, dateLabel: string, labelOf: Transaction -> string): (r: seq<Transaction>)
    ensures forall t :: t in r <==> t in txs && labelOf(t) == dateLabel
  {
    var keep := (t: Transaction) => labelOf(t) == dateLabel;
    FilterContents(txs, keep);
    Filter(txs, keep)
  }

  /** A label no transaction carries has no transactions. */
  lemma WithAbsentLabel(txs: seq<Transaction>, dateLabel: string, labelOf: Transaction -> string)
    requires dateLabel !in Labels(txs, labelOf)
    ensures WithLabel(txs, dateLabel, labelOf) == []
  {
    var keep := (t: Transaction) => labelOf(t) == dateLabel;
    forall i | 0 <= i < |txs| ensures !keep(txs[i]) {
      assert Labels(txs, labelOf)[i] == labelOf(txs[i]);
    }
    FilterDropsAll(txs, keep);
  }

  lemma LabelsSnoc(txs: seq<Transaction>, t: Transaction, labelOf: Transaction -> string)
    ensures Labels(txs + [t], labelOf) == Labels(txs, labelOf) + [labelOf(t)]
  {
  }

  lemma DistinctSnoc(s: seq<string>, x: string)
    ensures Distinct(s + [x]) == if x in Distinct(s) then Distinct(s) else Distinct(s) + [x]
  {
    assert (s + [x])[..|s|] == s;
  }

  /** Appending a transaction extends the group of its own label only. */
  lemma WithLabelSnoc(txs: seq<Transaction>, t: Transaction, dateLabel: string, labelOf: Transaction -> string)
    ensures WithLabel(txs + [t], dateLabel, labelOf)
            == WithLabel(txs, dateLabel, labelOf) + (if labelOf(t) == dateLabel then [t] else [])
  {
    FilterAppend(txs, [t], (u: Transaction) => labelOf(u) == dateLabel);
  }

  /** What the reduce's accumulator holds after a prefix `txs`: the labels
      in first-occurrence order, and under each label its transactions. */
  ghost predicate Accumulated(keys: seq<string>, acc: map<string, seq<Transaction>>,
                              txs: seq<Transaction>, labelOf: Transaction -> string)
  {
    && keys == Distinct(Labels(txs, labelOf))
    && (forall k :: k in acc <==> k in keys)
    && (forall k :: k in acc ==> acc[k] == WithLabel(txs, k, labelOf))
  }

  /** The accumulator the reduce holds after visiting `txs`: a label seen for
      the first time is appended to the key order and gets a fresh bucket;
      the transaction is pushed onto its label's bucket. */
  ghost function Reduced(txs: seq<Transaction>, labelOf: Transaction -> string)
    : (seq<string>, map<string, seq<Transaction>>)
  {
    if txs == [] then ([], map[])
    else
      var prev := Reduced(txs[..|txs| - 1], labelOf);
      var t := txs[|txs| - 1];
      var l := labelOf(t);
      (if l in prev.1 then prev.0 else prev.0 + [l],
       prev.1[l := (if l in prev.1 then prev.1[l] else []) + [t]])
  }

  /** The reduce's accumulator groups the transactions faithfully. */
  lemma {:induction false} ReducedFaithful(txs: seq<Transaction>, labelOf: Transaction -> string)
    ensures Accumulated(Reduced(txs, labelOf).0, Reduced(txs, labelOf).1, txs, labelOf)
  {
    if txs != [] {
      var init := txs[..|txs| - 1];
      ReducedFaithful(init, labelOf);
      assert txs == init + [txs[|txs| - 1]];
      var keys', acc' := AccumulateStep(Reduced(init, labelOf).0, Reduced(init, labelOf).1, init, txs[|txs| - 1], labelOf);
    }
  }

  /** One step of the reduce keeps the accumulator faithful. */
  lemma AccumulateStep(keys: seq<string>, acc: map<string, seq<Transaction>>,
                       txs: seq<Transaction>, t: Transaction, labelOf: Transaction -> string)
      returns (keys': seq<string>, acc': map<string, seq<Transaction>>)
    requires Accumulated(keys, acc, txs, labelOf)
    ensures keys' == if labelOf(t) in acc then keys else keys + [labelOf(t)]
    ensures acc' == acc[labelOf(t) := (if labelOf(t) in acc then acc[labelOf(t)] else []) + [t]]
    ensures Accumulated(keys', acc', txs + [t], labelOf)
  {
    var k0 := labelOf(t);
    keys' := if k0 in acc then keys else keys + [k0];
    acc' := acc[k0 := (if k0 in acc then acc[k0] else []) + [t]];
    LabelsSnoc(txs, t, labelOf);
    DistinctSnoc(Labels(txs, labelOf), k0);
    assert keys' == Distinct(Labels(txs + [t], labelOf));
    assert forall k :: k in acc' <==> k in keys';
    BucketsStep(acc, txs, t, labelOf);
  }

  /** The buckets after one step: the new transaction's label gets it
      appended, every other bucket keeps its contents. */
  lemma BucketsStep(acc: map<string, seq<Transaction>>, txs: seq<Transaction>, t: Transaction,
                    labelOf: Transaction -> string)
    requires forall k :: k in acc ==> acc[k] == WithLabel(txs, k, labelOf)
    requires labelOf(t) !in acc ==> labelOf(t) !in Labels(txs, labelOf)
    ensures forall k :: k in acc[labelOf(t) := (if labelOf(t) in acc then acc[labelOf(t)] else []) + [t]] ==>
              acc[labelOf(t) := (if labelOf(t) in acc then acc[labelOf(t)] else []) + [t]][k] == WithLabel(txs + [t], k, labelOf)
  {
    var k0 := labelOf(t);
    var acc' := acc[k0 := (if k0 in acc then acc[k0] else []) + [t]];
    if k0 !in acc {
      WithAbsentLabel(txs, k0, labelOf);
    }
    WithLabelSnoc(txs, t, k0, labelOf);
    forall k | k in acc' && k != k0
      ensures acc'[k] == WithLabel(txs + [t], k, labelOf)
    {
      WithLabelSnoc(txs, t, k, labelOf);
    }
  }

  /** The `groupedTransactions` reduce: one group per distinct date label, in
      the order the labels first occur in `txs`, each holding exactly the
      transactions with that label, in their `txs` order. */
  method GroupByLabel(txs: seq<Transaction>, today: CalendarDate) returns (groups: seq<Group>)
    ensures |groups| == |Distinct(Labels(txs, DayLabeller(today)))|
    ensures forall j :: 0 <= j < |groups| ==>
              groups[j].dateLabel == Distinct(Labels(txs, DayLabeller(today)))[j]
    ensures forall j :: 0 <= j < |groups| ==>
              groups[j].items == WithLabel(txs, groups[j].dateLabel, DayLabeller(today))
  {
    groups := GroupBy(txs, DayLabeller(today));
  }

  /** The reduce itself, for any labelling of the transactions. */
  method GroupBy(txs: seq<Transaction>, labelOf: Transaction -> string) returns (groups: seq<Group>)
    ensures |groups| == |Distinct(Labels(txs, labelOf))|
    ensures forall j :: 0 <= j < |groups| ==>
              groups[j].dateLabel == Distinct(Labels(txs, labelOf))[j]
    ensures forall j :: 0 <= j < |groups| ==>
              groups[j].items == WithLabel(txs, groups[j].dateLabel, labelOf)
  {
    var keys: seq<string> := [];
    var acc: map<string, seq<Transaction>> := map[];
    for i := 0 to |txs|
      invariant (keys, acc) == Reduced(txs[..i], labelOf)
    {
      var t := txs[i];
      var dateLabel := labelOf(t);
      assert txs[..i + 1][..i] == txs[..i];
      var bucket := [];
      if dateLabel in acc {
        bucket := acc[dateLabel];
      } else {
        keys := keys + [dateLabel];
      }
      acc := acc[dateLabel := bucket + [t]];
    }
    assert txs[..|txs|] == txs;
    ReducedFaithful(txs, labelOf);
    groups := Assemble(keys, acc);
    AssembleFaithful(keys, acc, txs, labelOf);
  }

  /** `Object.entries(acc)`: the groups in key order. */
  function Assemble(keys: seq<string>, acc: map<string, seq<Transaction>>): (groups: seq<Group>)
    requires forall k :: k in keys ==> k in acc
    ensures |groups| == |keys|
    ensures forall j :: 0 <= j < |keys| ==> groups[j] == Group(keys[j], acc[keys[j]])
  {
    seq(|keys|, j requires 0 <= j < |keys| => Group(keys[j], acc[keys[j]]))
  }

  lemma AssembleFaithful(keys: seq<string>, acc: map<string, seq<Transaction>>,
                         txs: seq<Transaction>, labelOf: Transaction -> string)
    requires Accumulated(keys, acc, txs, labelOf)
    ensures forall k :: k in keys ==> k in acc
    ensures forall j :: 0 <= j < |keys| ==> Assemble(keys, acc)[j].dateLabel == Distinct(Labels(txs, labelOf))[j]
    ensures forall j :: 0 <= j < |keys| ==>
              Assemble(keys, acc)[j].items == WithLabel(txs, Assemble(keys, acc)[j].dateLabel, labelOf)
  {
  }

  // ------------------------------------------------------- pending queue

  /** `prev.filter(t => t.id !== id)`: every entry with that id removed,
      the others kept in order. */
  function RemoveId(txs: seq<Transaction>, id: string): seq<Transaction>
  {
    Filter(txs, (t: Transaction) => t.id != id)
  }

  /** What removal by id leaves: no entry with that id, and every other
      entry with the multiplicity it had. */
  lemma RemoveIdContents(txs: seq<Transaction>, id: string)
    ensures forall t :: t in RemoveId(txs, id) <==> t in txs && t.id != id
    ensures forall t: Transaction :: t.id != id ==> multiset(RemoveId(txs, id))[t] == multiset(txs)[t]
    ensures |RemoveId(txs, id)| <= |txs|
  {
    FilterContents(txs, (t: Transaction) => t.id != id);
  }

  /** With distinct ids, removing the id of the entry at position `k` removes
      that entry and nothing else. */
  lemma RemoveIdAt(txs: seq<Transaction>, k: nat)
    requires k < |txs|
    requires forall i, j :: 0 <= i < j < |txs| ==> txs[i].id != txs[j].id
    ensures RemoveId(txs, txs[k].id) == txs[..k] + txs[k + 1..]
  {
    var keep := (t: Transaction) => t.id != txs[k].id;
    var before, after := txs[..k], txs[k + 1..];
    assert txs == before + ([txs[k]] + after);
    forall i | 0 <= i < |before| ensures keep(before[i]) {
      assert before[i] == txs[i];
    }
    forall i | 0 <= i < |after| ensures keep(after[i]) {
      assert after[i] == txs[k + 1 + i];
    }
    assert Filter([txs[k]], keep) == [];
    FilterKeepsAll(before, keep);
    FilterKeepsAll(after, keep);
    FilterAppend(before, [txs[k]] + after, keep);
    FilterAppend([txs[k]], after, keep);
  }

  // ----------------------------------------------------------- edit modal

  /** The edit modal's form state. `amount` is the number read from the
      amount field when the form is saved. */
  datatype EditForm = EditForm(
    kind: Kind,
    amount: real,
    category: string,
    categoryKey: string,
    note: string,
    date: CalendarDate,
    excludeFromBudget: bool)

  /** `transaction.note || transaction.description || ''`. */
  function InitialNote(t: Transaction): (r: string)
    ensures t.note != "" ==> r == t.note
    ensures t.note == "" ==> r == (if t.description.Some? then t.description.value else "")
  {
    if t.note != "" then t.note
    else match t.description
      case Some(d) => d
      case None => ""
  }

  /** The form as the edit modal opens it on a transaction. */
  function InitialForm(t: Transaction): EditForm
  {
    EditForm(t.kind, t.amount, t.category, t.categoryKey, InitialNote(t), t.date, t.excludeFromBudget)
  }

  /** The transaction the edit modal saves: the original's id with the form's
      fields, and no merchant or description. */
  function EditedCopy(original: Transaction, f: EditForm): (r: Transaction)
    ensures r.id == original.id
    ensures r.merchant.None? && r.description.None?
  {
    Transaction(original.id, f.kind, f.amount, f.category, f.categoryKey, f.note,
                f.date, f.excludeFromBudget, None, None)
  }

  /** Saving the form untouched gives back the transaction, except that an
      empty note takes the description and the import-only fields are dropped. */
  lemma EditUntouched(t: Transaction)
    ensures EditedCopy(t, InitialForm(t))
            == t.(note := InitialNote(t), merchant := None, description := None)
  {
  }

  /** The save button of both modals is disabled when the amount reads as 0. */
  predicate SaveEnabled(parsedAmount: Option<real>)
  {
    parsedAmount != Some(0.0)
  }
}
