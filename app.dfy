/** The `App` component's state and its handlers. Each React state variable
    is a field; each handler is a method that reassigns the fields its
    setters touch and no others. The swiper's `currentIndex` is kept here as
    `swiperIndex`: it lives as long as the swiper is mounted, which is while
    the swiper is open and the pending list is non-empty. */
module AppState {
  import opened Options
  import opened Seqs
  import opened Text
  import opened Calendar
  import opened Months
  import opened Ledger
  import opened Registry
  import opened Budgets
  import opened Swiper

  /** `DEFAULT_CATEGORIES`, reduced to category keys and subcategory names. */
  const DefaultCategories: Categories := map[
    "income" := ["Income"],
    "housing" := ["Rent", "Telephone", "Insurance", "Electricity", "Gym", "Internet", "Subscription"],
    "food" := ["Groceries", "Restaurant"],
    "savings" := ["Emergency funds", "Vacation fund"]]

  /** The budget table the app starts with. */
  const InitialBudgets: Table := map[
    "housing" := map["Rent" := Cell(200.0, Some(200.0)), "Gym" := Cell(10.0, Some(10.0))],
    "food" := map["Groceries" := Cell(30.0, Some(30.0))]]

  /** The category keys, which no handler adds to or removes from. */
  const DefaultKeys: set<string> := {"income", "housing", "food", "savings"}

  /** The default registry has exactly those keys, and none of them holds a
      dash, so every field key of the bulk budget editor is read back as the
      cell it was made from. */
  lemma DefaultKeysDashFree()
    ensures DefaultCategories.Keys == DefaultKeys
    ensures forall c :: c in DefaultKeys ==> '-' !in c
  {
  }

  /** The eight card transactions `handleConnectCard` loads; `stamp` is
      `Date.now().toString()` and `today` is `new Date()`. */
  function MockBatch(stamp: string, today: CalendarDate): (r: seq<Transaction>)
    ensures |r| == 8
    ensures forall i :: 0 <= i < 8 ==> r[i].id == stamp + [['1', '2', '3', '4', '5', '6', '7', '8'][i]]
    ensures forall i :: 0 <= i < 8 ==> r[i].kind == Expense && r[i].date == today && r[i].note == ""
  {
    [ Card(stamp + "1", 45.99, "Groceries", "food", "Whole Foods Market", "Weekly groceries", today),
      Card(stamp + "2", 12.50, "Restaurant", "food", "Local Cafe", "Lunch", today),
      Card(stamp + "3", 89.00, "Subscription", "housing", "Netflix", "Monthly subscription", today),
      Card(stamp + "4", 25.00, "Gym", "housing", "FitLife Gym", "Monthly membership", today),
      Card(stamp + "5", 15.99, "Internet", "housing", "ISP Provider", "Monthly internet bill", today),
      Card(stamp + "6", 67.50, "Restaurant", "food-drink", "Olive Garden", "Dinner with friends", today),
      Card(stamp + "7", 120.00, "Utilities", "housing", "Electric Company", "Monthly electricity bill", today),
      Card(stamp + "8", 8.50, "Cafe", "food-drink", "Local Coffee Shop", "Afternoon latte", today) ]
  }

  /** An imported card expense with an empty note. */
  function Card(id: string, amount: real, category: string, categoryKey: string,
                merchant: string, description: string, today: CalendarDate): Transaction
  {
    Transaction(id, Expense, amount, category, categoryKey, "", today, false, Some(merchant), Some(description))
  }

  /** The batch's ids are distinct: they differ in their last character. */
  lemma MockBatchDistinct(stamp: string, today: CalendarDate)
    ensures DistinctIds(MockBatch(stamp, today))
  {
    var b := MockBatch(stamp, today);
    forall i, j | 0 <= i < j < |b| ensures b[i].id != b[j].id {
      assert b[i].id[|stamp|] != b[j].id[|stamp|];
    }
  }

  /** As written, four swipes through a freshly loaded batch reach "All Done!"
      while the four cards at odd positions are still pending. */
  lemma MockBatchStopsHalfway(stamp: string, today: CalendarDate)
    ensures Shown(Run(Deck(MockBatch(stamp, today), 0), 4)).None?
    ensures |Run(Deck(MockBatch(stamp, today), 0), 4).pending| == 4
  {
    MockBatchDistinct(stamp, today);
    EvenBatchStopsHalfway(MockBatch(stamp, today), 4);
  }

  class App {
    var transactions: seq<Transaction>
    var pendingTransactions: seq<Transaction>
    var categories: Categories
    /** `selectedCategory`: the category's display name and key. */
    var selectedCategory: (string, string)
    var expandedCategories: seq<string>
    var categoryBudgets: Table
    /** `editingBudget`: the cell open in the single-cell editor. */
    var editingBudget: Option<(string, string)>
    var tempBudgetValue: string
    var isEditingBudgets: bool
    var tempBudgetValues: map<string, string>
    var currentMonth: string
    var currentYear: int
    var editingTransaction: Option<Transaction>
    var showEditTransaction: bool
    var showNewTransaction: bool
    var showCategoryPicker: bool
    var showCardConnection: bool
    var showCardSwiper: bool
    var isCardConnected: bool
    /** The mounted swiper's `currentIndex`. */
    var swiperIndex: nat

    /** The swiper is on screen exactly while it is open and cards are pending. */
    predicate SwiperMounted()
      reads this
    {
      showCardSwiper && |pendingTransactions| > 0
    }

    /** What every handler keeps: the category keys are the four defaults;
        every field key of the bulk budget editor holds a dash; the month
        shown is one the navigation reaches; the swiper's index is fresh
        whenever the swiper is not mounted. */
    predicate Valid()
      reads this
    {
      && categories.Keys == DefaultKeys
      && (forall k :: k in tempBudgetValues ==> '-' in k)
      && InWindow(currentMonth)
      && (!SwiperMounted() ==> swiperIndex == 0)
    }

    /** The swiper's view of the state. */
    function CurrentDeck(): (d: Deck)
      reads this
      ensures d.pending == pendingTransactions && d.index == swiperIndex
    {
      Deck(pendingTransactions, swiperIndex)
    }

    /** `monthTransactions`: the ledger entries of the month on screen. */
    function MonthView(): (r: seq<Transaction>)
      reads this
      ensures forall t :: t in r <==> t in transactions && InMonth(t, currentMonth, currentYear)
    {
      MonthTransactions(transactions, currentMonth, currentYear)
    }

    constructor()
      ensures Valid()
      ensures transactions == [] && pendingTransactions == []
      ensures categories == DefaultCategories && categoryBudgets == InitialBudgets
      ensures selectedCategory == ("Food", "food") && expandedCategories == []
      ensures editingBudget == None && tempBudgetValue == ""
      ensures !isEditingBudgets && tempBudgetValues == map[]
      ensures currentMonth == "November" && currentYear == 2025
      ensures editingTransaction == None && !showEditTransaction && !showNewTransaction
      ensures !showCategoryPicker && !showCardConnection && !showCardSwiper && !isCardConnected
      ensures swiperIndex == 0
    {
      transactions := [];
      pendingTransactions := [];
      categories := DefaultCategories;
      selectedCategory := ("Food", "food");
      expandedCategories := [];
      categoryBudgets := InitialBudgets;
      editingBudget := None;
      tempBudgetValue := "";
      isEditingBudgets := false;
      tempBudgetValues := map[];
      currentMonth := "November";
      currentYear := 2025;
      editingTransaction := None;
      showEditTransaction := false;
      showNewTransaction := false;
      showCategoryPicker := false;
      showCardConnection := false;
      showCardSwiper := false;
      isCardConnected := false;
      swiperIndex := 0;
    }

    // ------------------------------------------------------ ledger

    /** `handleSaveTransaction`: the new entry goes to the head of the ledger
        and the new-transaction modal closes. */
    method SaveTransaction(t: Transaction)
      requires Valid()
      modifies this`transactions, this`showNewTransaction
      ensures Valid()
      ensures transactions == [t] + old(transactions)
      ensures !showNewTransaction
    {
      transactions := [t] + transactions;
      showNewTransaction := false;
    }

    /** `handleCategorySelect`. */
    method SelectCategory(name: string, key: string)
      requires Valid()
      modifies this`selectedCategory, this`showCategoryPicker
      ensures Valid()
      ensures selectedCategory == (name, key) && !showCategoryPicker
    {
      selectedCategory := (name, key);
      showCategoryPicker := false;
    }

    // ------------------------------------------------------ categories

    /** `handleAddSubcategory`. On a key that is not a category the handler
        throws, as it reads the subcategories of `undefined`; here it reports
        `false` and changes nothing. */
    method AddSubcategory(key: string, name: string) returns (ok: bool)
      requires Valid()
      modifies this`categories
      ensures Valid()
      ensures ok <==> key in old(categories)
      ensures ok ==> categories == WithSubcategory(old(categories), key, name)
      ensures !ok ==> categories == old(categories)
    {
      ok := key in categories;
      if ok {
        categories := WithSubcategory(categories, key, name);
      }
    }

    /** `handleDeleteSubcategory`, with the same treatment of unknown keys. */
    method DeleteSubcategory(key: string, name: string) returns (ok: bool)
      requires Valid()
      modifies this`categories
      ensures Valid()
      ensures ok <==> key in old(categories)
      ensures ok ==> categories == WithoutSubcategory(old(categories), key, name)
      ensures !ok ==> categories == old(categories)
    {
      ok := key in categories;
      if ok {
        categories := WithoutSubcategory(categories, key, name);
      }
    }

    /** The picker's add button: nothing happens unless a category is
        expanded and the trimmed name is non-empty; then the trimmed name is
        added to the expanded category. */
    method AddFromPicker(expanded: Option<string>, raw: string) returns (ok: bool)
      requires Valid()
      modifies this`categories
      ensures Valid()
      ensures PickedSubcategory(expanded, raw).None? ==> !ok && categories == old(categories)
      ensures PickedSubcategory(expanded, raw).Some? && expanded.value in old(categories) ==>
                ok && categories == WithSubcategory(old(categories), expanded.value, Trim(raw))
      ensures PickedSubcategory(expanded, raw).Some? && expanded.value !in old(categories) ==>
                !ok && categories == old(categories)
    {
      var picked := PickedSubcategory(expanded, raw);
      ok := false;
      if picked.Some? {
        ok := AddSubcategory(picked.value.0, picked.value.1);
      }
    }

    /** `toggleCategory`. */
    method ToggleCategory(key: string)
      requires Valid()
      modifies this`expandedCategories
      ensures Valid()
      ensures expandedCategories == Toggled(old(expandedCategories), key)
      ensures key in expandedCategories <==> key !in old(expandedCategories)
    {
      expandedCategories := Toggled(expandedCategories, key);
    }

    // ------------------------------------------------------ card import

    /** `handleConnectCard`: the pending list becomes the eight-card batch and
        the swiper opens. A swiper that was already mounted stays mounted and
        keeps its index. */
    method ConnectCard(stamp: string, today: CalendarDate)
      requires Valid()
      modifies this`isCardConnected, this`pendingTransactions, this`showCardConnection, this`showCardSwiper,
               this`swiperIndex
      ensures Valid()
      ensures isCardConnected && !showCardConnection && showCardSwiper
      ensures pendingTransactions == MockBatch(stamp, today)
      ensures swiperIndex == old(swiperIndex)
      ensures !old(SwiperMounted()) ==> CurrentDeck() == Deck(MockBatch(stamp, today), 0)
    {
      isCardConnected := true;
      pendingTransactions := MockBatch(stamp, today);
      showCardConnection := false;
      showCardSwiper := true;
    }

    /** `handleCardSwipeRight`: the card goes to the head of the ledger and
        every pending entry with its id leaves the pending list. Only the
        swiper calls it, from `DragEnd`; a swipe that empties the list leaves
        the index of the unmounted swiper behind, so `Valid()` holds again
        only once `DragEnd` has reset it. */
    method SwipeRight(t: Transaction)
      modifies this`transactions, this`pendingTransactions
      ensures transactions == [t] + old(transactions)
      ensures pendingTransactions == RemoveId(old(pendingTransactions), t.id)
    {
      transactions := [t] + transactions;
      pendingTransactions := RemoveId(pendingTransactions, t.id);
    }

    /** `handleCardSwipeLeft`: the card opens in the edit modal and every
        pending entry with its id leaves the pending list. Like `SwipeRight`,
        it is a step of `DragEnd`, which restores `Valid()`. */
    method SwipeLeft(t: Transaction)
      modifies this`editingTransaction, this`showEditTransaction, this`pendingTransactions
      ensures editingTransaction == Some(t) && showEditTransaction
      ensures pendingTransactions == RemoveId(old(pendingTransactions), t.id)
    {
      editingTransaction := Some(t);
      showEditTransaction := true;
      pendingTransactions := RemoveId(pendingTransactions, t.id);
    }

    /** `handleDragEnd` on the card on screen, as written: past the threshold
        either way the card is handed to its handler and the index advances,
        while the handler has already removed the card from the list the
        index points into. When the list runs empty the swiper unmounts and
        its index is gone. */
    method DragEnd(offset: real)
      requires Valid() && SwiperMounted() && swiperIndex < |pendingTransactions|
      modifies this`transactions, this`pendingTransactions, this`editingTransaction, this`showEditTransaction,
               this`swiperIndex
      ensures Valid()
      ensures CurrentDeck() == AfterDrag(old(CurrentDeck()), offset)
      ensures Classify(offset) == Right ==>
                transactions == [old(pendingTransactions[swiperIndex])] + old(transactions)
      ensures Classify(offset) != Right ==> transactions == old(transactions)
      ensures Classify(offset) == Left ==>
                editingTransaction == Some(old(pendingTransactions[swiperIndex])) && showEditTransaction
      ensures Classify(offset) != Left ==>
                editingTransaction == old(editingTransaction) && showEditTransaction == old(showEditTransaction)
    {
      var card := pendingTransactions[swiperIndex];
      var direction := Classify(offset);
      if direction == Right {
        SwipeRight(card);
        swiperIndex := swiperIndex + 1;
      } else if direction == Left {
        SwipeLeft(card);
        swiperIndex := swiperIndex + 1;
      }
      if !SwiperMounted() {
        swiperIndex := 0;
      }
    }

    /** The swiper's close button (also on the "All Done!" panel): the swiper
        unmounts, so its index starts afresh next time. Pending cards stay. */
    method CloseSwiper()
      requires Valid()
      modifies this`showCardSwiper, this`swiperIndex
      ensures Valid()
      ensures !showCardSwiper && swiperIndex == 0
    {
      showCardSwiper := false;
      swiperIndex := 0;
    }

    /** `handleSaveEditedTransaction`: the edited entry goes to the head of
        the ledger and the edit modal closes. */
    method SaveEditedTransaction(t: Transaction)
      requires Valid()
      modifies this`transactions, this`showEditTransaction, this`editingTransaction
      ensures Valid()
      ensures transactions == [t] + old(transactions)
      ensures !showEditTransaction && editingTransaction == None
    {
      transactions := [t] + transactions;
      showEditTransaction := false;
      editingTransaction := None;
    }

    /** The edit modal's save button: the form is saved as a copy of the card
        being edited, under that card's id, through `handleSaveEditedTransaction`.
        The modal is on screen only while a card is being edited, and the
        button is enabled only when the amount does not read as 0. */
    method SaveEditForm(f: EditForm)
      requires Valid() && showEditTransaction && editingTransaction.Some? && SaveEnabled(Some(f.amount))
      modifies this`transactions, this`showEditTransaction, this`editingTransaction
      ensures Valid()
      ensures transactions == [EditedCopy(old(editingTransaction).value, f)] + old(transactions)
      ensures transactions[0].id == old(editingTransaction).value.id
      ensures !showEditTransaction && editingTransaction == None
    {
      SaveEditedTransaction(EditedCopy(editingTransaction.value, f));
    }

    /** The edit modal's close button: the card that was swiped left is
        dropped, being neither pending nor in the ledger. */
    method CloseEditTransaction()
      requires Valid()
      modifies this`showEditTransaction, this`editingTransaction
      ensures Valid()
      ensures !showEditTransaction && editingTransaction == None
    {
      showEditTransaction := false;
      editingTransaction := None;
    }

    // ------------------------------------------------------ budgets

    /** `startEditingBudget`: the cell opens in the single-cell editor with
        its printed budget (0 when unset). */
    method StartEditingBudget(c: string, s: string, show: real -> string)
      requires Valid()
      modifies this`editingBudget, this`tempBudgetValue
      ensures Valid()
      ensures editingBudget == Some((c, s))
      ensures tempBudgetValue == show(BudgetedOrZero(categoryBudgets, c, s))
    {
      editingBudget := Some((c, s));
      tempBudgetValue := show(BudgetedOrZero(categoryBudgets, c, s));
    }

    /** `saveBudgetEdit`: with a cell open, its budget becomes the parsed text
        (0 when it does not parse) and the editor closes; with none open,
        nothing happens. */
    method SaveBudgetEdit(parse: string -> Option<real>)
      requires Valid()
      modifies this`categoryBudgets, this`editingBudget, this`tempBudgetValue
      ensures Valid()
      ensures old(editingBudget).None? ==>
                categoryBudgets == old(categoryBudgets) && editingBudget == None && tempBudgetValue == old(tempBudgetValue)
      ensures old(editingBudget).Some? ==>
                categoryBudgets == WithBudgeted(old(categoryBudgets), old(editingBudget).value.0, old(editingBudget).value.1,
                                                OrZero(parse(old(tempBudgetValue))))
                && editingBudget == None && tempBudgetValue == ""
    {
      if editingBudget.Some? {
        var newBudget := OrZero(parse(tempBudgetValue));
        categoryBudgets := WithBudgeted(categoryBudgets, editingBudget.value.0, editingBudget.value.1, newBudget);
        editingBudget := None;
        tempBudgetValue := "";
      }
    }

    /** `enterEditMode`: every registered subcategory gets a field holding its
        printed budget. */
    method EnterEditMode(show: real -> string)
      requires Valid()
      modifies this`isEditingBudgets, this`tempBudgetValues
      ensures Valid()
      ensures isEditingBudgets
      ensures EditValues(tempBudgetValues, categories, categoryBudgets, show)
      ensures forall c, s :: c in categories && s in categories[c] ==>
                tempBudgetValues[TempKey(c, s)] == show(BudgetedOrZero(categoryBudgets, c, s))
    {
      isEditingBudgets := true;
      var temp := CollectEditValues(categories, categoryBudgets, show);
      tempBudgetValues := temp;
      DefaultKeysDashFree();
      EditValuesFields(temp, categories, categoryBudgets, show);
    }

    /** A budget field's `onChange`: the field of cell `(c, s)` takes the
        typed text. */
    method EditTempBudget(c: string, s: string, text: string)
      requires Valid()
      modifies this`tempBudgetValues
      ensures Valid()
      ensures tempBudgetValues == old(tempBudgetValues)[TempKey(c, s) := text]
    {
      tempBudgetValues := tempBudgetValues[TempKey(c, s) := text];
    }

    /** `saveAllBudgets`: every field is written back into its cell and the
        bulk editor closes. Since every field key holds a dash, each field's
        text lands in exactly the cell its key names. */
    method SaveAllBudgets(parse: string -> Option<real>)
      requires Valid()
      modifies this`categoryBudgets, this`isEditingBudgets, this`tempBudgetValues
      ensures Valid()
      ensures SavedOn(categoryBudgets, old(categoryBudgets), old(tempBudgetValues), old(tempBudgetValues).Keys, parse)
      ensures forall k :: k in old(tempBudgetValues) ==>
                KeyParts(k).0 in categoryBudgets && KeyParts(k).1 in categoryBudgets[KeyParts(k).0]
                && categoryBudgets[KeyParts(k).0][KeyParts(k).1].budgeted == OrZero(parse(old(tempBudgetValues)[k]))
      ensures !isEditingBudgets && tempBudgetValues == map[]
    {
      var saved: Table := SaveAll(categoryBudgets, tempBudgetValues, parse);
      SaveAllFields(saved, categoryBudgets, tempBudgetValues, parse);
      categoryBudgets := saved;
      isEditingBudgets := false;
      tempBudgetValues := map[];
    }

    /** `cancelEditMode`: the fields are discarded and the table is kept. */
    method CancelEditMode()
      requires Valid()
      modifies this`isEditingBudgets, this`tempBudgetValues
      ensures Valid()
      ensures !isEditingBudgets && tempBudgetValues == map[]
    {
      isEditingBudgets := false;
      tempBudgetValues := map[];
    }

    // ------------------------------------------------------ months

    /** `handlePreviousMonth`. */
    method GoToPreviousMonth()
      requires Valid()
      modifies this`currentMonth
      ensures Valid()
      ensures currentMonth == PreviousMonth(old(currentMonth))
    {
      currentMonth := PreviousMonth(currentMonth);
    }

    /** `handleNextMonth`. */
    method GoToNextMonth()
      requires Valid()
      modifies this`currentMonth
      ensures Valid()
      ensures currentMonth == NextMonth(old(currentMonth))
    {
      currentMonth := NextMonth(currentMonth);
    }
  }
}
