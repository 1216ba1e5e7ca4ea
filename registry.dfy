/** The category registry (category key to its ordered subcategory names),
    the category picker's name check, and the budget screen's list of
    expanded categories. */
module Registry {
  import opened Options
  import opened Seqs
  import opened Text

  /** Category key to subcategory names. Names, colours and icons are display
      data and are not modelled. */
  type Categories = map<string, seq<string>>

  /** `handleAddSubcategory`'s update for a known key: the name is appended to
      that category's list; every other category is untouched. */
  function WithSubcategory(cats: Categories, key: string, name: string): (r: Categories)
    requires key in cats
    ensures r.Keys == cats.Keys
    ensures r[key] == cats[key] + [name]
    ensures forall k :: k in cats && k != key ==> r[k] == cats[k]
  {
    cats[key := cats[key] + [name]]
  }

  /** `handleDeleteSubcategory`'s update for a known key: every occurrence of
      the name leaves that category's list, whose other names keep their
      order and multiplicity; every other category is untouched. */
  function WithoutSubcategory(cats: Categories, key: string, name: string): (r: Categories)
    requires key in cats
    ensures r.Keys == cats.Keys
    ensures name !in r[key]
    ensures forall s :: s != name ==> multiset(r[key])[s] == multiset(cats[key])[s]
    ensures forall k :: k in cats && k != key ==> r[k] == cats[k]
  {
    var keep := (s: string) => s != name;
    FilterContents(cats[key], keep);
    cats[key := Filter(cats[key], keep)]
  }

  /** Deleting a name that was just added, and was not there before, restores
      the registry. */
  lemma AddThenDelete(cats: Categories, key: string, name: string)
    requires key in cats && name !in cats[key]
    ensures WithoutSubcategory(WithSubcategory(cats, key, name), key, name) == cats
  {
    var keep := (s: string) => s != name;
    FilterAppend(cats[key], [name], keep);
    FilterKeepsAll(cats[key], keep);
    assert WithoutSubcategory(WithSubcategory(cats, key, name), key, name)[key] == cats[key];
  }

  /** Deleting keeps the surviving names in their order: the list before a
      position and the list after it are filtered independently. */
  lemma DeleteKeepsOrder(names: seq<string>, k: nat, name: string)
    requires k <= |names|
    ensures Filter(names, (s: string) => s != name)
            == Filter(names[..k], (s: string) => s != name) + Filter(names[k..], (s: string) => s != name)
  {
    assert names == names[..k] + names[k..];
    FilterAppend(names[..k], names[k..], (s: string) => s != name);
  }

  /** The picker's check before it adds: `newSubcategoryName.trim()` must be
      non-empty and a category must be expanded; the trimmed name is what is
      added. */
  function PickedSubcategory(expanded: Option<string>, raw: string): (r: Option<(string, string)>)
    ensures r.Some? <==> expanded.Some? && expanded.value != "" && !forall i :: 0 <= i < |raw| ==> IsJsWhitespace(raw[i])
    ensures r.Some? ==> r.value.0 == expanded.value && r.value.1 == Trim(raw) && r.value.1 != []
                        && !IsJsWhitespace(r.value.1[0]) && !IsJsWhitespace(r.value.1[|r.value.1| - 1])
  {
    TrimBlank(raw);
    if Trim(raw) != "" && expanded.Some? && expanded.value != "" then Some((expanded.value, Trim(raw)))
    else None
  }

  /** `toggleCategory`: a key in the list leaves it, a key not in it is
      appended. */
  function Toggled(expanded: seq<string>, key: string): (r: seq<string>)
    ensures key in r <==> key !in expanded
    ensures forall k :: k != key ==> (k in r <==> k in expanded)
    ensures NoDuplicates(expanded) ==> NoDuplicates(r)
  {
    if key in expanded then
      var keep := (k: string) => k != key;
      FilterContents(expanded, keep);
      if NoDuplicates(expanded) then FilterNoDuplicates(expanded, keep); Filter(expanded, keep)
      else Filter(expanded, keep)
    else expanded + [key]
  }

  /** Toggling a collapsed category twice leaves the list as it was. */
  lemma ToggleTwice(expanded: seq<string>, key: string)
    requires key !in expanded
    ensures Toggled(Toggled(expanded, key), key) == expanded
  {
    var keep := (k: string) => k != key;
    FilterAppend(expanded, [key], keep);
    FilterKeepsAll(expanded, keep);
  }
}
