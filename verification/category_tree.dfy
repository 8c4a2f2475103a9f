/**
 * The bag-category management screen's data handling: building the
 * displayed tree from a flat list of categories, looking categories up by id
 * and by name, the parent choices of the edit form, the search filter and the
 * summary figures. Categories are identified by their position in the list,
 * which is what the in-place `children` lists of the screen refer to.
 */
module CategoryTree {
  import opened Wrappers
  import opened PyText
  import Seqs

  datatype Category = Category(id: int, name: string, parentId: Option<int>, level: int)

  /** `find_category_by_id`: the position of the first category with this id. */
  function FindIndex(cats: seq<Category>, id: int): (r: Option<nat>)
    ensures r.Some? ==> r.value < |cats| && cats[r.value].id == id
    ensures r.Some? ==> forall k :: 0 <= k < r.value ==> cats[k].id != id
    ensures r.None? <==> forall k :: 0 <= k < |cats| ==> cats[k].id != id
  {
    if |cats| == 0 then None
    else if cats[0].id == id then Some(0)
    else
      match FindIndex(cats[1..], id)
      case None =>
        assert forall k :: 0 < k < |cats| ==> cats[k] == cats[1..][k - 1];
        None
      case Some(j) =>
        assert forall k :: 0 < k <= j + 1 ==> cats[k] == cats[1..][k - 1];
        Some(j + 1)
  }

  /** `find_category_by_id` returning the category itself. */
  function FindCategoryById(cats: seq<Category>, id: int): (r: Option<Category>)
    ensures r.Some? <==> exists k :: 0 <= k < |cats| && cats[k].id == id
    ensures r.Some? ==> r.value.id == id && r.value in cats
  {
    match FindIndex(cats, id)
    case None => None
    case Some(j) => Some(cats[j])
  }

  /** The built tree: the positions of the top-level categories, and each category's children. */
  datatype Tree = Tree(roots: Option<seq<nat>>, children: map<nat, seq<nat>>)

  /** One pass of `build_tree`'s loop, for the category at position `i`. */
  function Attach(cats: seq<Category>, t: Tree, i: nat): Tree
    requires i < |cats|
  {
    match cats[i].parentId
    case None => t.(roots := Some(t.roots.GetOr([]) + [i]))
    case Some(p) =>
      match FindIndex(cats, p)
      case None => t
      case Some(j) => t.(children := t.children[j := (if j in t.children then t.children[j] else []) + [i]])
  }

  /** The tree after the loop has seen the first `n` categories. */
  function BuildPrefix(cats: seq<Category>, n: nat): Tree
    requires n <= |cats|
  {
    if n == 0 then Tree(None, map[]) else Attach(cats, BuildPrefix(cats, n - 1), n - 1)
  }

  /** `build_tree`. */
  function BuildTree(cats: seq<Category>): Tree {
    BuildPrefix(cats, |cats|)
  }

  function Range(n: nat): (r: seq<nat>)
    ensures |r| == n && forall i :: 0 <= i < n ==> r[i] == i
  {
    seq(n, i => i)
  }

  predicate IsRoot(cats: seq<Category>, i: nat) {
    i < |cats| && cats[i].parentId.None?
  }

  /** Category `i` hangs under category `j`: the first category carrying `i`'s parent id is `j`. */
  predicate ChildOf(cats: seq<Category>, j: nat, i: nat) {
    i < |cats| && cats[i].parentId.Some? && FindIndex(cats, cats[i].parentId.value) == Some(j)
  }

  function RootPred(cats: seq<Category>): nat -> bool {
    (i: nat) => IsRoot(cats, i)
  }

  function ChildPred(cats: seq<Category>, j: nat): nat -> bool {
    (i: nat) => ChildOf(cats, j, i)
  }

  /** The top-level positions among the first `n`, in list order. */
  function RootsUpTo(cats: seq<Category>, n: nat): seq<nat> {
    Seqs.Filter(Range(n), i => IsRoot(cats, i))
  }

  /** The positions among the first `n` that hang under `j`, in list order. */
  function ChildrenUpTo(cats: seq<Category>, j: nat, n: nat): seq<nat> {
    Seqs.Filter(Range(n), i => ChildOf(cats, j, i))
  }

  lemma FilterRangeStep(n: nat, p: nat -> bool)
    ensures Seqs.Filter(Range(n + 1), p) == Seqs.Filter(Range(n), p) + (if p(n) then [n] else [])
  {
    assert Range(n + 1) == Range(n) + [n];
    Seqs.FilterAppend(Range(n), [n], p);
    assert [n][1..] == [];
  }

  /**
   * The tree after `n` steps lists exactly the top-level categories among
   * them, in order, under a `children` key that exists only when there is
   * one; and each category's children are exactly the later-or-earlier
   * categories that resolve to it, in list order, with the key present only
   * for a non-empty list.
   */
  lemma {:induction false} BuildPrefixSpec(cats: seq<Category>, n: nat)
    requires n <= |cats|
    ensures BuildPrefix(cats, n).roots == (if |RootsUpTo(cats, n)| == 0 then None else Some(RootsUpTo(cats, n)))
    ensures forall j :: j in BuildPrefix(cats, n).children <==> |ChildrenUpTo(cats, j, n)| > 0
    ensures forall j :: j in BuildPrefix(cats, n).children ==> BuildPrefix(cats, n).children[j] == ChildrenUpTo(cats, j, n)
  {
    if n > 0 {
      var i := n - 1;
      BuildPrefixSpec(cats, i);
      FilterRangeStep(i, RootPred(cats));
      assert RootPred(cats)(i) == IsRoot(cats, i);
      var t := BuildPrefix(cats, i);
      assert t.roots.GetOr([]) == RootsUpTo(cats, i);
      assert BuildPrefix(cats, n) == Attach(cats, t, i);
      if IsRoot(cats, i) {
        assert RootsUpTo(cats, n) == RootsUpTo(cats, i) + [i];
      } else {
        assert RootsUpTo(cats, n) == RootsUpTo(cats, i) + [];
        assert RootsUpTo(cats, i) + [] == RootsUpTo(cats, i);
        assert Attach(cats, t, i).roots == t.roots;
      }
      forall j ensures ChildrenUpTo(cats, j, n) == ChildrenUpTo(cats, j, i) + (if ChildOf(cats, j, i) then [i] else []) {
        FilterRangeStep(i, ChildPred(cats, j));
      }
    } else {
      assert Range(0) == [];
    }
  }

  /** The `children` key of the tree holds every top-level category in list order, and exists only if one does. */
  lemma BuildTreeRoots(cats: seq<Category>)
    ensures BuildTree(cats).roots.None? <==> forall i :: 0 <= i < |cats| ==> cats[i].parentId.Some?
    ensures BuildTree(cats).roots.Some? ==> BuildTree(cats).roots.value == RootsUpTo(cats, |cats|)
    ensures forall i :: 0 <= i < |cats| && cats[i].parentId.None? ==> BuildTree(cats).roots.Some? && i in BuildTree(cats).roots.value
  {
    BuildPrefixSpec(cats, |cats|);
    var rs := RootsUpTo(cats, |cats|);
    forall i | 0 <= i < |cats| ensures i in rs <==> cats[i].parentId.None? {
      Seqs.FilterMembership<nat>(Range(|cats|), RootPred(cats), i);
      assert Range(|cats|)[i] == i;
    }
    if |rs| > 0 {
      Seqs.FilterMembership<nat>(Range(|cats|), RootPred(cats), rs[0]);
    }
  }

  /** A category whose parent id names no category in the list is attached nowhere. */
  lemma OrphanDropped(cats: seq<Category>, i: nat)
    requires i < |cats| && cats[i].parentId.Some?
    requires forall k :: 0 <= k < |cats| ==> cats[k].id != cats[i].parentId.value
    ensures BuildTree(cats).roots.Some? ==> i !in BuildTree(cats).roots.value
    ensures forall j :: j in BuildTree(cats).children ==> i !in BuildTree(cats).children[j]
  {
    BuildPrefixSpec(cats, |cats|);
    Seqs.FilterMembership<nat>(Range(|cats|), RootPred(cats), i);
    forall j | j in BuildTree(cats).children ensures i !in BuildTree(cats).children[j] {
      Seqs.FilterMembership<nat>(Range(|cats|), ChildPred(cats, j), i);
    }
  }

  /** A category whose parent is in the list sits in the children of the first category with that id. */
  lemma ChildAttached(cats: seq<Category>, i: nat)
    requires i < |cats| && cats[i].parentId.Some?
    requires exists k :: 0 <= k < |cats| && cats[k].id == cats[i].parentId.value
    ensures var j := FindIndex(cats, cats[i].parentId.value).value;
      j in BuildTree(cats).children && i in BuildTree(cats).children[j]
  {
    var j := FindIndex(cats, cats[i].parentId.value).value;
    BuildPrefixSpec(cats, |cats|);
    Seqs.FilterMembership<nat>(Range(|cats|), ChildPred(cats, j), i);
    assert Range(|cats|)[i] == i;
  }

  /** `search_term.lower() in cat['name'].lower()`. */
  function SearchHit(term: string): Category -> bool {
    (c: Category) => Contains(Lower(c.name), Lower(term))
  }

  /** The search results: each matching category as often as it occurs, keeping list order. */
  function SearchCategories(cats: seq<Category>, term: string): (r: seq<Category>)
    ensures forall c :: c in r <==> c in cats && Contains(Lower(c.name), Lower(term))
    ensures forall c :: multiset(r)[c] == if Contains(Lower(c.name), Lower(term)) then multiset(cats)[c] else 0
  {
    forall c ensures c in Seqs.Filter(cats, SearchHit(term)) <==> c in cats && SearchHit(term)(c) {
      Seqs.FilterMembership(cats, SearchHit(term), c);
    }
    Seqs.FilterCounts(cats, SearchHit(term));
    Seqs.Filter(cats, SearchHit(term))
  }

  /**
   * The results of a concatenated list are the results of each part, one
   * after the other; with the one-element case this fixes the order of the
   * comprehension.
   */
  lemma SearchCategoriesAppend(a: seq<Category>, b: seq<Category>, term: string)
    ensures SearchCategories(a + b, term) == SearchCategories(a, term) + SearchCategories(b, term)
  {
    Seqs.FilterAppend(a, b, SearchHit(term));
  }

  /** A single category is listed exactly when its name contains the term. */
  lemma SearchCategoriesSingle(c: Category, term: string)
    ensures SearchCategories([c], term) == if Contains(Lower(c.name), Lower(term)) then [c] else []
  {
    assert [c][1..] == [];
  }

  const NoParent := "无（顶级分类）"

  /** Offered as a new parent: not the category being edited and not at a deeper level. */
  function Offered(cat: Category): Category -> bool {
    (c: Category) => c.id != cat.id && c.level <= cat.level
  }

  /** The categories offered as a new parent, each as often as it occurs and in list order. */
  function ParentCandidates(all: seq<Category>, cat: Category): (r: seq<Category>)
    ensures forall c :: c in r <==> c in all && c.id != cat.id && c.level <= cat.level
    ensures forall c :: multiset(r)[c] == if c.id != cat.id && c.level <= cat.level then multiset(all)[c] else 0
  {
    forall c ensures c in Seqs.Filter(all, Offered(cat)) <==> c in all && Offered(cat)(c) {
      Seqs.FilterMembership(all, Offered(cat), c);
    }
    Seqs.FilterCounts(all, Offered(cat));
    Seqs.Filter(all, Offered(cat))
  }

  /** The candidates of a concatenated list are those of each part, one after the other. */
  lemma ParentCandidatesAppend(a: seq<Category>, b: seq<Category>, cat: Category)
    ensures ParentCandidates(a + b, cat) == ParentCandidates(a, cat) + ParentCandidates(b, cat)
  {
    Seqs.FilterAppend(a, b, Offered(cat));
  }

  function Names(cs: seq<Category>): (r: seq<string>)
    ensures |r| == |cs| && forall i :: 0 <= i < |cs| ==> r[i] == cs[i].name
  {
    seq(|cs|, i requires 0 <= i < |cs| => cs[i].name)
  }

  /** The top-level choice followed by the names of exactly the offered categories. */
  lemma OptionsOfCandidates(all: seq<Category>, cat: Category, cs: seq<Category>)
    requires forall c :: c in cs <==> c in all && c.id != cat.id && c.level <= cat.level
    ensures var r := [NoParent] + Names(cs);
      && (forall c :: c in all && c.id != cat.id && c.level <= cat.level ==> c.name in r)
      && (forall i :: 1 <= i < |r| ==> exists c :: c in all && c.id != cat.id && c.level <= cat.level && c.name == r[i])
      && r[1..] == Names(cs)
  {
    var names := Names(cs);
    var r := [NoParent] + names;
    assert r[1..] == names;
    forall c | c in all && c.id != cat.id && c.level <= cat.level ensures c.name in r {
      assert c in cs;
      var k :| 0 <= k < |cs| && cs[k] == c;
      assert r[k + 1] == names[k];
    }
    assert forall i :: 1 <= i < |r| ==> cs[i - 1] in cs && r[i] == cs[i - 1].name;
  }

  /** The edit form's parent choices: the top-level choice first, then the candidates' names. */
  function ParentOptions(all: seq<Category>, cat: Category): (r: seq<string>)
    ensures |r| >= 1 && r[0] == NoParent
    ensures forall c :: c in all && c.id != cat.id && c.level <= cat.level ==> c.name in r
    ensures forall i :: 1 <= i < |r| ==> exists c :: c in all && c.id != cat.id && c.level <= cat.level && c.name == r[i]
    ensures r[1..] == Names(ParentCandidates(all, cat))
  {
    var cs := ParentCandidates(all, cat);
    OptionsOfCandidates(all, cat, cs);
    [NoParent] + Names(cs)
  }

  /** `options.index(x) if x in options else 0`. */
  function IndexOr0(options: seq<string>, x: string): (r: nat)
    requires |options| > 0
    ensures r < |options|
    ensures x in options ==> options[r] == x && forall k :: 0 <= k < r ==> options[k] != x
    ensures x !in options ==> r == 0
  {
    if options[0] == x then 0
    else if |options| == 1 then 0
    else if x in options[1..] then 1 + IndexOr0(options[1..], x)
    else 0
  }

  /** The pre-selected parent: the parent's name when the category has a truthy parent id that resolves. */
  function CurrentParent(all: seq<Category>, cat: Category): (r: string)
    ensures r == NoParent || exists c :: c in all && c.name == r
    ensures TruthyInt(cat.parentId) && FindCategoryById(all, cat.parentId.value).Some? ==>
      r == FindCategoryById(all, cat.parentId.value).value.name
    ensures !TruthyInt(cat.parentId) || (forall k :: 0 <= k < |all| ==> all[k].id != cat.parentId.value) ==> r == NoParent
  {
    if TruthyInt(cat.parentId) then
      match FindCategoryById(all, cat.parentId.value)
      case Some(p) => p.name
      case None => NoParent
    else NoParent
  }

  /** The index of the edit form's parent selector. */
  function ParentSelection(all: seq<Category>, cat: Category): (r: nat)
    ensures r < |ParentOptions(all, cat)|
    ensures CurrentParent(all, cat) in ParentOptions(all, cat) ==> ParentOptions(all, cat)[r] == CurrentParent(all, cat)
  {
    IndexOr0(ParentOptions(all, cat), CurrentParent(all, cat))
  }

  /** A parent that exists and may be chosen is the one the selector starts on. */
  lemma ParentPreselected(all: seq<Category>, cat: Category, parent: Category)
    requires TruthyInt(cat.parentId) && FindCategoryById(all, cat.parentId.value) == Some(parent)
    requires parent.id != cat.id && parent.level <= cat.level
    ensures ParentOptions(all, cat)[ParentSelection(all, cat)] == parent.name
  {
    assert parent in all;
  }

  /** Without a parent that resolves, the selector starts on the top-level choice. */
  lemma NoParentSelectsTop(all: seq<Category>, cat: Category)
    requires !TruthyInt(cat.parentId) || FindCategoryById(all, cat.parentId.value).None?
    ensures ParentSelection(all, cat) == 0
  {
  }

  /** `next((cat['id'] for cat in all if cat['name'] == name), None)`: the id of the first category with this name. */
  function IdByName(all: seq<Category>, name: string): (r: Option<int>)
    ensures r.None? <==> forall k :: 0 <= k < |all| ==> all[k].name != name
    ensures r.Some? ==> exists k :: 0 <= k < |all| && all[k].name == name && all[k].id == r.value &&
                                (forall m :: 0 <= m < k ==> all[m].name != name)
  {
    if |all| == 0 then None
    else if all[0].name == name then Some(all[0].id)
    else
      var rest := IdByName(all[1..], name);
      assert forall k :: 0 < k < |all| ==> all[k] == all[1..][k - 1];
      assert rest.Some? ==> exists k :: 0 <= k < |all| && all[k].name == name && all[k].id == rest.value &&
                                (forall m :: 0 <= m < k ==> all[m].name != name) by {
        if rest.Some? {
          var k :| 0 <= k < |all[1..]| && all[1..][k].name == name && all[1..][k].id == rest.value &&
                   (forall m :: 0 <= m < k ==> all[1..][m].name != name);
          assert all[k + 1] == all[1..][k];
        }
      }
      rest
  }

  /** The parent id the save button stores for a chosen option. */
  function ChosenParentId(all: seq<Category>, choice: string): Option<int> {
    if choice == NoParent then None else IdByName(all, choice)
  }

  predicate UniqueNames(all: seq<Category>) {
    forall a, b :: 0 <= a < |all| && 0 <= b < |all| && all[a].name == all[b].name ==> a == b
  }

  /** With unique names, choosing a category by name stores that category's id. */
  lemma ChosenParentRoundTrip(all: seq<Category>, k: nat)
    requires UniqueNames(all)
    requires k < |all| && all[k].name != NoParent
    ensures ChosenParentId(all, all[k].name) == Some(all[k].id)
  {
  }

  /** `len([cat for cat in categories if cat['parent_id'] is None])`. */
  function TopLevelCount(cats: seq<Category>): nat {
    |Seqs.Filter(cats, (c: Category) => c.parentId.None?)|
  }

  /** The top-level count is the number of roots the tree shows. */
  lemma TopLevelCountIsRoots(cats: seq<Category>)
    ensures TopLevelCount(cats) == |RootsUpTo(cats, |cats|)|
  {
    TopLevelUpTo(cats, |cats|);
    assert cats[..|cats|] == cats;
  }

  lemma {:induction false} TopLevelUpTo(cats: seq<Category>, n: nat)
    requires n <= |cats|
    ensures |Seqs.Filter(cats[..n], (c: Category) => c.parentId.None?)| == |RootsUpTo(cats, n)|
  {
    if n > 0 {
      TopLevelUpTo(cats, n - 1);
      FilterRangeStep(n - 1, RootPred(cats));
      assert cats[..n] == cats[..n - 1] + [cats[n - 1]];
      Seqs.FilterAppend(cats[..n - 1], [cats[n - 1]], (c: Category) => c.parentId.None?);
      assert [cats[n - 1]][1..] == [];
    }
  }

  /** `max([cat['level'] for cat in categories]) if categories else 0`. */
  function MaxLevel(cats: seq<Category>): (r: int)
    ensures |cats| == 0 ==> r == 0
    ensures forall i :: 0 <= i < |cats| ==> cats[i].level <= r
    ensures |cats| > 0 ==> exists i :: 0 <= i < |cats| && cats[i].level == r
  {
    if |cats| == 0 then 0
    else if |cats| == 1 then cats[0].level
    else
      var m := MaxLevel(cats[1..]);
      assert forall i :: 1 <= i < |cats| ==> cats[i] == cats[1..][i - 1];
      if cats[0].level >= m then cats[0].level else m
  }
}
