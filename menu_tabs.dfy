/**
 * The menu tab selector (script.js, initMenuTabs): a row of tabs, each naming
 * a menu category by its `data-category` attribute, and the category panels,
 * each with an element id. A click clears every tab and every category and
 * then activates the clicked tab and the category whose id it names.
 */
module MenuTabs {
  import opened JsCore

  class TabSelector {
    /** The "active" class of each `.menu__tab`. */
    var tabs: array<bool>
    /** The "active" class of each `.menu__category`. */
    var categories: array<bool>
    /** The `data-category` attribute of each tab. */
    const targets: seq<string>
    /** The id of each category panel, in document order. */
    const categoryIds: seq<string>

    ghost predicate Valid()
      reads this
    {
      tabs != categories && |targets| == tabs.Length && |categoryIds| == categories.Length
    }

    constructor (initialTabs: seq<bool>, tabTargets: seq<string>, initialCategories: seq<bool>, ids: seq<string>)
      requires |initialTabs| == |tabTargets| && |initialCategories| == |ids|
      ensures Valid() && fresh(tabs) && fresh(categories)
      ensures tabs[..] == initialTabs && categories[..] == initialCategories
      ensures targets == tabTargets && categoryIds == ids
    {
      tabs := new bool[|initialTabs|](i requires 0 <= i < |initialTabs| => initialTabs[i]);
      categories := new bool[|initialCategories|](i requires 0 <= i < |initialCategories| => initialCategories[i]);
      targets, categoryIds := tabTargets, ids;
    }

    /**
     * A click on tab k: afterwards exactly tab k is active, and exactly the
     * first category whose id is the tab's `data-category` (none if no
     * category has it).
     */
    method Click(k: nat)
      requires Valid() && k < tabs.Length
      modifies tabs, categories
      ensures forall i :: 0 <= i < tabs.Length ==> tabs[i] == (i == k)
      ensures forall j :: 0 <= j < categories.Length ==>
                categories[j] == (GetElementById(categoryIds, targets[k]) == Some(j))
      ensures (forall a, b :: 0 <= a < b < |categoryIds| ==> categoryIds[a] != categoryIds[b]) ==>
                forall j :: 0 <= j < categories.Length ==>
                  categories[j] == (categoryIds[j] == targets[k] && targets[k] != "")
    {
      var target := targets[k];
      var i := 0;
      while i < tabs.Length
        invariant 0 <= i <= tabs.Length
        invariant forall t :: 0 <= t < i ==> !tabs[t]
        modifies tabs
      {
        tabs[i] := false;
        i := i + 1;
      }
      i := 0;
      while i < categories.Length
        invariant 0 <= i <= categories.Length
        invariant forall t :: 0 <= t < i ==> !categories[t]
        modifies categories
      {
        categories[i] := false;
        i := i + 1;
      }
      tabs[k] := true;
      var found := GetElementById(categoryIds, target);
      if found.Some? {
        categories[found.value] := true;
      }
      if forall a, b :: 0 <= a < b < |categoryIds| ==> categoryIds[a] != categoryIds[b] {
        forall j | 0 <= j < categories.Length
          ensures categories[j] == (categoryIds[j] == target && target != "")
        {
          GetElementByIdUnique(categoryIds, target, j);
        }
      }
    }
  }
}
