/** The budget table of the budget screen: the single-cell editor
    (`startEditingBudget`/`saveBudgetEdit`), the bulk editor's text fields
    keyed `category-subcategory` (`enterEditMode`) and their write-back
    (`saveAllBudgets`). Number parsing and printing are parameters: `parse`
    stands for `parseFloat` (None for NaN) and `show` for `Number.toString`. */
module Budgets {
  import opened Options
  import opened Text
  import opened Registry

  /** One subcategory's budget line. `spent` is absent on a line that the
      single-cell editor created. */
  datatype Cell = Cell(budgeted: real, spent: Option<real>)

  /** Category key to subcategory name to budget line. */
  type Table = map<string, map<string, Cell>>

  /** `x || 0` on a number that may be missing or NaN (both `None` here). */
  function OrZero(v: Option<real>): real
  {
    if v.Some? then v.value else 0.0
  }

  /** `table[c]?.[s]?.budgeted || 0`. */
  function BudgetedOrZero(table: Table, c: string, s: string): real
  {
    if c in table && s in table[c] then table[c][s].budgeted else 0.0
  }

  /** `table[c]?.[s]?.spent || 0`. */
  function SpentOrZero(table: Table, c: string, s: string): real
  {
    if c in table && s in table[c] then OrZero(table[c][s].spent) else 0.0
  }

  // ------------------------------------------------------ single-cell edit

  /** `saveBudgetEdit`'s update: the cell `(c, s)` gets budget `v` and keeps
      whatever `spent` it had (none on a new cell); every other cell, and
      every other category, is untouched. A missing category is created. */
  function WithBudgeted(table: Table, c: string, s: string, v: real): (r: Table)
    ensures r.Keys == table.Keys + {c}
    ensures r[c].Keys == (if c in table then table[c].Keys else {}) + {s}
    ensures r[c][s].budgeted == v
    ensures r[c][s].spent == if c in table && s in table[c] then table[c][s].spent else None
    ensures forall c' :: c' in table && c' != c ==> r[c'] == table[c']
    ensures c in table ==> forall s' :: s' in table[c] && s' != s ==> r[c][s'] == table[c][s']
  {
    var row := if c in table then table[c] else map[];
    var spent := if s in row then row[s].spent else None;
    table[c := row[s := Cell(v, spent)]]
  }

  /** A second edit of the same cell overrides the first. */
  lemma WithBudgetedTwice(table: Table, c: string, s: string, v: real, w: real)
    ensures WithBudgeted(WithBudgeted(table, c, s, v), c, s, w) == WithBudgeted(table, c, s, w)
  {
    assert WithBudgeted(WithBudgeted(table, c, s, v), c, s, w)[c] == WithBudgeted(table, c, s, w)[c];
  }

  /** Opening the single-cell editor on an existing cell and saving without
      typing, when the printed number parses back to itself, leaves the
      table as it was. */
  lemma SingleEditUntouched(table: Table, c: string, s: string, parse: string -> Option<real>, show: real -> string)
    requires c in table && s in table[c]
    requires parse(show(table[c][s].budgeted)) == Some(table[c][s].budgeted)
    ensures WithBudgeted(table, c, s, OrZero(parse(show(BudgetedOrZero(table, c, s))))) == table
  {
    var r := WithBudgeted(table, c, s, OrZero(parse(show(BudgetedOrZero(table, c, s)))));
    assert r[c] == table[c];
  }

  // ---------------------------------------------------------- field keys

  /** The key of a subcategory's text field: `${categoryKey}-${subcategory}`. */
  function TempKey(c: string, s: string): (k: string)
    ensures '-' in k
  {
    c + "-" + s
  }

  /** `saveAllBudgets`' reading of a key: the text before the first dash is
      the category, the rest (dashes included) the subcategory. */
  function KeyParts(key: string): (parts: (string, string))
    ensures '-' !in parts.0
  {
    var pieces := Split(key, '-');
    (pieces[0], Join(pieces[1..], '-'))
  }

  /** A field key is read back as the cell it was made from exactly when the
      category key holds no dash. */
  lemma TempKeyRoundTrip(c: string, s: string)
    ensures KeyParts(TempKey(c, s)) == (c, s) <==> '-' !in c
  {
    if '-' !in c {
      assert TempKey(c, s) == c + ['-'] + s;
      SplitAfterHead(c, '-', s);
      assert ([c] + Split(s, '-'))[1..] == Split(s, '-');
      JoinSplit(s, '-');
    }
  }

  /** A key holding a dash is the field key of the cell it is read as, so two
      such keys never land on the same cell. */
  lemma KeyPartsRejoin(key: string)
    requires '-' in key
    ensures TempKey(KeyParts(key).0, KeyParts(key).1) == key
  {
    var pieces := Split(key, '-');
    JoinSplit(key, '-');
    assert Join(pieces, '-') == pieces[0] + ['-'] + Join(pieces[1..], '-');
  }

  lemma KeyPartsInjective(k1: string, k2: string)
    requires '-' in k1 && '-' in k2 && KeyParts(k1) == KeyParts(k2)
    ensures k1 == k2
  {
    KeyPartsRejoin(k1);
    KeyPartsRejoin(k2);
  }

  // ------------------------------------------------------ entering edit mode

  /** The text fields `enterEditMode` fills: one per registered subcategory,
      holding its printed budget (0 when unset); no other keys. When two
      cells share a key the later one's text is kept, so a key's text is
      that of some cell with that key. */
  ghost predicate EditValues(temp: map<string, string>, reg: Categories, table: Table, show: real -> string)
  {
    && (forall c, s :: c in reg && s in reg[c] ==> TempKey(c, s) in temp)
    && (forall k :: k in temp ==>
          exists c, s :: c in reg && s in reg[c] && k == TempKey(c, s)
                         && temp[k] == show(BudgetedOrZero(table, c, s)))
  }

  /** Every subcategory of the categories in `done` has its field. */
  ghost predicate Covered(temp: map<string, string>, reg: Categories, done: set<string>)
  {
    forall c, s :: c in done && c in reg && s in reg[c] ==> TempKey(c, s) in temp
  }

  /** Every field holds the printed budget of some cell with its key. */
  ghost predicate FromCells(temp: map<string, string>, reg: Categories, table: Table, show: real -> string)
  {
    forall k :: k in temp ==>
      exists c, s :: c in reg && s in reg[c] && k == TempKey(c, s)
                     && temp[k] == show(BudgetedOrZero(table, c, s))
  }

  /** Filling a field keeps every field filled before it. */
  lemma FillKeeps(temp: map<string, string>, reg: Categories, done: set<string>,
                  c: string, subs: seq<string>, j: nat, text: string)
    requires Covered(temp, reg, done)
    requires j < |subs| && forall i :: 0 <= i < j ==> TempKey(c, subs[i]) in temp
    ensures Covered(temp[TempKey(c, subs[j]) := text], reg, done)
    ensures forall i :: 0 <= i < j + 1 ==> TempKey(c, subs[i]) in temp[TempKey(c, subs[j]) := text]
  {
  }

  /** Once each subcategory of `c` has its field, `c` is covered too. */
  lemma CoverCategory(temp: map<string, string>, reg: Categories, done: set<string>, c: string)
    requires Covered(temp, reg, done)
    requires c in reg && forall i :: 0 <= i < |reg[c]| ==> TempKey(c, reg[c][i]) in temp
    ensures Covered(temp, reg, done + {c})
  {
    forall s | s in reg[c] ensures TempKey(c, s) in temp {
      var i :| 0 <= i < |reg[c]| && reg[c][i] == s;
    }
  }

  /** Filling one registered cell's field keeps every field a cell's text. */
  lemma FillStep(temp: map<string, string>, reg: Categories, table: Table, show: real -> string, c: string, s: string)
    requires FromCells(temp, reg, table, show)
    requires c in reg && s in reg[c]
    ensures FromCells(temp[TempKey(c, s) := show(BudgetedOrZero(table, c, s))], reg, table, show)
  {
  }

  /** `enterEditMode`'s nested `forEach`: categories in any order, each
      category's subcategories in list order. */
  method CollectEditValues(reg: Categories, table: Table, show: real -> string) returns (temp: map<string, string>)
    ensures EditValues(temp, reg, table, show)
  {
    temp := map[];
    var todo := reg.Keys;
    ghost var done: set<string> := {};
    while todo != {}
      invariant todo == reg.Keys - done
      invariant Covered(temp, reg, done)
      invariant FromCells(temp, reg, table, show)
      decreases |todo|
    {
      var c :| c in todo;
      var subs := reg[c];
      for j := 0 to |subs|
        invariant Covered(temp, reg, done)
        invariant FromCells(temp, reg, table, show)
        invariant forall i :: 0 <= i < j ==> TempKey(c, subs[i]) in temp
      {
        FillStep(temp, reg, table, show, c, subs[j]);
        FillKeeps(temp, reg, done, c, subs, j, show(BudgetedOrZero(table, c, subs[j])));
        temp := temp[TempKey(c, subs[j]) := show(BudgetedOrZero(table, c, subs[j]))];
      }
      CoverCategory(temp, reg, done, c);
      done := done + {c};
      todo := todo - {c};
    }
  }

  /** With dash-free category keys every registered cell's field holds that
      cell's own printed budget. */
  lemma EditValuesExact(temp: map<string, string>, reg: Categories, table: Table, show: real -> string, c: string, s: string)
    requires EditValues(temp, reg, table, show)
    requires forall c' :: c' in reg ==> '-' !in c'
    requires c in reg && s in reg[c]
    ensures temp[TempKey(c, s)] == show(BudgetedOrZero(table, c, s))
  {
    var k := TempKey(c, s);
    var c', s' :| c' in reg && s' in reg[c'] && k == TempKey(c', s')
                  && temp[k] == show(BudgetedOrZero(table, c', s'));
    TempKeyRoundTrip(c, s);
    TempKeyRoundTrip(c', s');
  }

  /** The fields `enterEditMode` fills all hold a dash, and with dash-free
      category keys each registered cell's field holds its own printed
      budget. */
  lemma EditValuesFields(temp: map<string, string>, reg: Categories, table: Table, show: real -> string)
    requires EditValues(temp, reg, table, show)
    requires forall c :: c in reg ==> '-' !in c
    ensures forall k :: k in temp ==> '-' in k
    ensures forall c, s :: c in reg && s in reg[c] ==> temp[TempKey(c, s)] == show(BudgetedOrZero(table, c, s))
  {
    forall c, s | c in reg && s in reg[c]
      ensures temp[TempKey(c, s)] == show(BudgetedOrZero(table, c, s))
    {
      EditValuesExact(temp, reg, table, show, c, s);
    }
  }

  // ------------------------------------------------------- saving all fields

  /** Some field in `keys` is read as cell `(c, s)`. */
  ghost predicate Hit(keys: set<string>, c: string, s: string)
  {
    exists k :: k in keys && KeyParts(k) == (c, s)
  }

  /** What `saveAllBudgets` makes of `table` after writing back the fields in
      `keys`: the cells read from those keys are added (their categories
      created when missing); each such cell's budget is the parsed text (0
      when it does not parse) of one of the fields read as it, and its spent
      is the old spent or 0; every other cell is untouched. */
  ghost predicate SavedOn(r: Table, table: Table, temp: map<string, string>, keys: set<string>, parse: string -> Option<real>)
  {
    && SavedCategories(r, table)
    && SavedCells(r, table, keys)
    && SavedUntouched(r, table, keys)
    && SavedHits(r, table, temp, keys, parse)
  }

  /** No category is lost, and a new one holds at least one cell. */
  ghost predicate SavedCategories(r: Table, table: Table)
  {
    && (forall c :: c in table ==> c in r)
    && (forall c :: c in r && c !in table ==> r[c] != map[])
  }

  ghost predicate SavedCells(r: Table, table: Table, keys: set<string>)
  {
    forall c, s :: c in r && s in r[c] <==> (c in table && s in table[c]) || Hit(keys, c, s)
  }

  ghost predicate SavedUntouched(r: Table, table: Table, keys: set<string>)
  {
    forall c, s :: c in r && s in r[c] && !Hit(keys, c, s) ==> c in table && s in table[c] && r[c][s] == table[c][s]
  }

  ghost predicate SavedHits(r: Table, table: Table, temp: map<string, string>, keys: set<string>, parse: string -> Option<real>)
  {
    forall c, s :: c in r && s in r[c] && Hit(keys, c, s) ==>
      && r[c][s].spent == Some(SpentOrZero(table, c, s))
      && exists k :: k in keys && k in temp && KeyParts(k) == (c, s) && r[c][s].budgeted == OrZero(parse(temp[k]))
  }

  /** The body of `saveAllBudgets`' loop for one field: the category is
      created when missing, and the cell gets budget `b` and keeps its spent
      (0 when it had none). */
  function WriteBack(nb: Table, c: string, s: string, b: real): (r: Table)
    ensures r.Keys == nb.Keys + {c}
    ensures r[c].Keys == (if c in nb then nb[c].Keys else {}) + {s}
    ensures r[c][s] == Cell(b, Some(SpentOrZero(nb, c, s)))
    ensures forall c' :: c' in nb && c' != c ==> r[c'] == nb[c']
    ensures c in nb ==> forall s' :: s' in nb[c] && s' != s ==> r[c][s'] == nb[c][s']
  {
    var row := if c in nb then nb[c] else map[];
    var currentSpent := if s in row then OrZero(row[s].spent) else 0.0;
    nb[c := row[s := Cell(b, Some(currentSpent))]]
  }

  /** Writing back one more field keeps `SavedOn`. */
  lemma SaveStep(nb: Table, table: Table, temp: map<string, string>, done: set<string>, k: string,
                 parse: string -> Option<real>)
    requires k in temp
    requires SavedOn(nb, table, temp, done, parse)
    ensures SavedOn(WriteBack(nb, KeyParts(k).0, KeyParts(k).1, OrZero(parse(temp[k]))), table, temp, done + {k}, parse)
  {
    var (c, s) := KeyParts(k);
    var nb' := WriteBack(nb, c, s, OrZero(parse(temp[k])));
    var keys := done + {k};
    assert Hit(keys, c, s);
    SaveStepCells(nb, nb', table, temp, done, k, parse);
    SaveStepUntouched(nb, nb', table, temp, done, k, parse);
    SaveStepHit(nb, nb', table, temp, done, k, parse);
  }

  lemma SaveStepCells(nb: Table, nb': Table, table: Table, temp: map<string, string>, done: set<string>, k: string,
                      parse: string -> Option<real>)
    requires SavedCells(nb, table, done)
    requires k in temp && nb' == WriteBack(nb, KeyParts(k).0, KeyParts(k).1, OrZero(parse(temp[k])))
    ensures SavedCells(nb', table, done + {k})
  {
    var keys := done + {k};
    forall c1, s1
      ensures c1 in nb' && s1 in nb'[c1] <==> (c1 in table && s1 in table[c1]) || Hit(keys, c1, s1)
    {
      if Hit(keys, c1, s1) && (c1, s1) != KeyParts(k) {
        var k1 :| k1 in keys && KeyParts(k1) == (c1, s1);
        assert Hit(done, c1, s1);
      }
      if Hit(done, c1, s1) {
        var k1 :| k1 in done && KeyParts(k1) == (c1, s1);
        assert k1 in keys;
      }
      if (c1, s1) == KeyParts(k) {
        assert Hit(keys, c1, s1);
      }
    }
  }

  lemma SaveStepUntouched(nb: Table, nb': Table, table: Table, temp: map<string, string>, done: set<string>, k: string,
                          parse: string -> Option<real>)
    requires SavedUntouched(nb, table, done)
    requires k in temp && nb' == WriteBack(nb, KeyParts(k).0, KeyParts(k).1, OrZero(parse(temp[k])))
    ensures SavedUntouched(nb', table, done + {k})
  {
    var keys := done + {k};
    forall c1, s1 | c1 in nb' && s1 in nb'[c1] && !Hit(keys, c1, s1)
      ensures c1 in table && s1 in table[c1] && nb'[c1][s1] == table[c1][s1]
    {
      assert KeyParts(k) != (c1, s1);
      assert !Hit(done, c1, s1);
    }
  }

  lemma SaveStepHit(nb: Table, nb': Table, table: Table, temp: map<string, string>, done: set<string>, k: string,
                    parse: string -> Option<real>)
    requires SavedCells(nb, table, done) && SavedUntouched(nb, table, done) && SavedHits(nb, table, temp, done, parse)
    requires k in temp && nb' == WriteBack(nb, KeyParts(k).0, KeyParts(k).1, OrZero(parse(temp[k])))
    ensures SavedHits(nb', table, temp, done + {k}, parse)
  {
    var keys := done + {k};
    var (c, s) := KeyParts(k);
    assert SpentOrZero(nb, c, s) == SpentOrZero(table, c, s) by {
      if c in nb && s in nb[c] && !Hit(done, c, s) {
        assert nb[c][s] == table[c][s];
      }
    }
    forall c1, s1 | c1 in nb' && s1 in nb'[c1] && Hit(keys, c1, s1)
      ensures nb'[c1][s1].spent == Some(SpentOrZero(table, c1, s1))
      ensures exists k1 :: k1 in keys && k1 in temp && KeyParts(k1) == (c1, s1) && nb'[c1][s1].budgeted == OrZero(parse(temp[k1]))
    {
      if (c1, s1) == (c, s) {
        assert KeyParts(k) == (c1, s1);
      } else {
        var k1 :| k1 in keys && KeyParts(k1) == (c1, s1);
        assert k1 in done;
        assert Hit(done, c1, s1);
        var k2 :| k2 in done && k2 in temp && KeyParts(k2) == (c1, s1) && nb[c1][s1].budgeted == OrZero(parse(temp[k2]));
        assert k2 in keys;
      }
    }
  }

  /** The table after writing back the fields `ks`, in that order. */
  ghost function Replayed(table: Table, temp: map<string, string>, ks: seq<string>, parse: string -> Option<real>): Table
    requires forall i :: 0 <= i < |ks| ==> ks[i] in temp
  {
    if ks == [] then table
    else WriteKey(Replayed(table, temp, ks[..|ks| - 1], parse), temp, ks[|ks| - 1], parse)
  }

  /** The write-back of the field named `k`. */
  function WriteKey(nb: Table, temp: map<string, string>, k: string, parse: string -> Option<real>): Table
    requires k in temp
  {
    WriteBack(nb, KeyParts(k).0, KeyParts(k).1, OrZero(parse(temp[k])))
  }

  lemma ReplayedSnoc(table: Table, temp: map<string, string>, ks: seq<string>, k: string, parse: string -> Option<real>)
    requires forall i :: 0 <= i < |ks| ==> ks[i] in temp
    requires k in temp
    ensures forall i :: 0 <= i < |ks + [k]| ==> (ks + [k])[i] in temp
    ensures Replayed(table, temp, ks + [k], parse) == WriteKey(Replayed(table, temp, ks, parse), temp, k, parse)
  {
    assert (ks + [k])[..|ks|] == ks;
  }

  /** Whatever the order of the keys, writing them back meets `SavedOn`. */
  lemma {:induction false} ReplayedSaved(table: Table, temp: map<string, string>, ks: seq<string>, parse: string -> Option<real>)
    requires forall i :: 0 <= i < |ks| ==> ks[i] in temp
    ensures SavedOn(Replayed(table, temp, ks, parse), table, temp, (set k | k in ks), parse)
  {
    if ks == [] {
      assert (set k | k in ks) == {};
    } else {
      var init := ks[..|ks| - 1];
      var k := ks[|ks| - 1];
      var done := set k1 | k1 in init;
      assert ks == init + [k];
      assert (set k1 | k1 in ks) == done + {k};
      ReplayedSaved(table, temp, init, parse);
      SaveStep(Replayed(table, temp, init, parse), table, temp, done, k, parse);
    }
  }

  /** `saveAllBudgets`: a copy of the table with every field written back, in
      any order of the keys. */
  method SaveAll(table: Table, temp: map<string, string>, parse: string -> Option<real>) returns (r: Table)
    ensures SavedOn(r, table, temp, temp.Keys, parse)
  {
    r := table;
    var todo := temp.Keys;
    ghost var order: seq<string> := [];
    while todo != {}
      invariant todo <= temp.Keys
      invariant forall i :: 0 <= i < |order| ==> order[i] in temp
      invariant forall k :: k in temp ==> k in todo || k in order
      invariant r == Replayed(table, temp, order, parse)
      decreases |todo|
    {
      var key :| key in todo;
      ReplayedSnoc(table, temp, order, key, parse);
      r := WriteKey(r, temp, key, parse);
      order := order + [key];
      todo := todo - {key};
    }
    ReplayedAll(table, temp, order, parse);
  }

  /** Writing back every field, in any order, meets `SavedOn` for all keys. */
  lemma ReplayedAll(table: Table, temp: map<string, string>, ks: seq<string>, parse: string -> Option<real>)
    requires forall i :: 0 <= i < |ks| ==> ks[i] in temp
    requires forall k :: k in temp ==> k in ks
    ensures SavedOn(Replayed(table, temp, ks, parse), table, temp, temp.Keys, parse)
  {
    assert (set k | k in ks) == temp.Keys;
    ReplayedSaved(table, temp, ks, parse);
  }

  /** When every field key holds a dash (as every key the screen writes does),
      each field's text lands in exactly the cell the key names. */
  lemma SaveAllExact(r: Table, table: Table, temp: map<string, string>, parse: string -> Option<real>, k: string)
    requires SavedOn(r, table, temp, temp.Keys, parse)
    requires forall k' :: k' in temp ==> '-' in k'
    requires k in temp
    ensures KeyParts(k).0 in r && KeyParts(k).1 in r[KeyParts(k).0]
    ensures r[KeyParts(k).0][KeyParts(k).1].budgeted == OrZero(parse(temp[k]))
  {
    var c := KeyParts(k).0;
    var s := KeyParts(k).1;
    assert Hit(temp.Keys, c, s);
    var k1 :| k1 in temp.Keys && k1 in temp && KeyParts(k1) == (c, s) && r[c][s].budgeted == OrZero(parse(temp[k1]));
    KeyPartsInjective(k, k1);
  }

  /** `SaveAllExact` for every key at once. */
  lemma SaveAllFields(r: Table, table: Table, temp: map<string, string>, parse: string -> Option<real>)
    requires SavedOn(r, table, temp, temp.Keys, parse)
    requires forall k :: k in temp ==> '-' in k
    ensures forall k :: k in temp ==>
              KeyParts(k).0 in r && KeyParts(k).1 in r[KeyParts(k).0]
              && r[KeyParts(k).0][KeyParts(k).1].budgeted == OrZero(parse(temp[k]))
  {
    forall k | k in temp
      ensures KeyParts(k).0 in r && KeyParts(k).1 in r[KeyParts(k).0]
              && r[KeyParts(k).0][KeyParts(k).1].budgeted == OrZero(parse(temp[k]))
    {
      SaveAllExact(r, table, temp, parse, k);
    }
  }

  /** Entering edit mode and saving without typing, when every printed budget
      parses back to itself and no category key holds a dash: every registered
      cell keeps its budget (0 when it had none) and gets a spent (0 when it
      had none); every other cell is untouched. */
  lemma EditThenSave(reg: Categories, table: Table, temp: map<string, string>, r: Table,
                     parse: string -> Option<real>, show: real -> string)
    requires forall c :: c in reg ==> '-' !in c
    requires forall c, s :: c in reg && s in reg[c] ==>
               parse(show(BudgetedOrZero(table, c, s))) == Some(BudgetedOrZero(table, c, s))
    requires EditValues(temp, reg, table, show)
    requires SavedOn(r, table, temp, temp.Keys, parse)
    ensures forall c, s :: c in reg && s in reg[c] ==>
              c in r && s in r[c] && r[c][s] == Cell(BudgetedOrZero(table, c, s), Some(SpentOrZero(table, c, s)))
    ensures forall c, s :: c in r && s in r[c] && !(c in reg && s in reg[c]) ==> c in table && s in table[c] && r[c][s] == table[c][s]
  {
    forall c, s | c in reg && s in reg[c]
      ensures c in r && s in r[c] && r[c][s] == Cell(BudgetedOrZero(table, c, s), Some(SpentOrZero(table, c, s)))
    {
      var k := TempKey(c, s);
      TempKeyRoundTrip(c, s);
      EditValuesExact(temp, reg, table, show, c, s);
      SaveAllExact(r, table, temp, parse, k);
    }
    forall c, s | c in r && s in r[c] && !(c in reg && s in reg[c])
      ensures c in table && s in table[c] && r[c][s] == table[c][s]
    {
      if Hit(temp.Keys, c, s) {
        var k :| k in temp.Keys && KeyParts(k) == (c, s);
        var c', s' :| c' in reg && s' in reg[c'] && k == TempKey(c', s')
                      && temp[k] == show(BudgetedOrZero(table, c', s'));
        TempKeyRoundTrip(c', s');
        assert false;
      }
    }
  }
}
