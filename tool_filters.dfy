/** The list filters shared by the tools shell and the home page. */
module ToolFilters {
  import opened Seqs
  import opened Text
  import opened ToolDefinitions

  /** The category selector, `ToolCategory | 'all'`. */
  datatype CategoryFilter = AllCategories | OnlyCategory(c: ToolCategory)

  /** The lower-cased text both views search: name, description, category,
      id, route, then the keywords, joined by single spaces (a different
      order from the registry's `search`). */
  function ViewHaystack(t: ToolDefinition): string {
    Lower(Join([t.name, t.description, CategoryName(t.category), t.id, t.route] + KeywordsOf(t), " "))
  }

  /** `cat === 'all' ? true : t.category === cat` */
  function CategoryPass(cat: CategoryFilter): ToolDefinition -> bool {
    (t: ToolDefinition) => cat.AllCategories? || t.category == cat.c
  }

  /** `if (!q) return true; ... haystack.includes(q)` for a normalised query. */
  function QueryPass(q: string): ToolDefinition -> bool {
    (t: ToolDefinition) => q == [] || Contains(ViewHaystack(t), q)
  }

  /** `this.allTools.map((t) => t.category)` */
  function CategoryList(tools: seq<ToolDefinition>): (r: seq<ToolCategory>)
    ensures |r| == |tools| && forall i :: 0 <= i < |tools| ==> r[i] == tools[i].category
  {
    seq(|tools|, i requires 0 <= i < |tools| => tools[i].category)
  }

  /** `Array.from(new Set(tools.map((t) => t.category)))`: every category that
      occurs, once, in the order in which the tools first show it. */
  function Categories(tools: seq<ToolDefinition>): (r: seq<ToolCategory>)
    ensures NoDup(r)
    ensures forall c :: c in r <==> exists t :: t in tools && t.category == c
    ensures forall c :: c in r <==> c in CategoryList(tools)
    ensures forall i, j :: 0 <= i < j < |r| ==>
      FirstIndex(CategoryList(tools), r[i]) < FirstIndex(CategoryList(tools), r[j])
  {
    var cs := CategoryList(tools);
    DistinctFirstSeenOrder(cs);
    assert forall c :: c in cs <==> exists t :: t in tools && t.category == c by {
      forall c ensures c in cs <==> exists t :: t in tools && t.category == c {
        if c in cs {
          var i :| 0 <= i < |cs| && cs[i] == c;
          assert tools[i] in tools;
        }
      }
    }
    Distinct(cs)
  }

  /** Composing two filters keeps a subsequence of the original list. */
  lemma FilterTwiceIsSubseq<T(!new)>(p: T -> bool, q: T -> bool, s: seq<T>)
    ensures IsSubseq(Filter(q, Filter(p, s)), s)
  {
    FilterIsSubseq(p, s);
    FilterIsSubseq(q, Filter(p, s));
    SubseqTrans(Filter(q, Filter(p, s)), Filter(p, s), s);
  }

  /** With no category and no query, both filters keep every tool. */
  lemma UnfilteredKeepsAll(tools: seq<ToolDefinition>)
    ensures Filter(QueryPass([]), Filter(CategoryPass(AllCategories), tools)) == tools
  {
    FilterKeepsAll(CategoryPass(AllCategories), tools);
    FilterKeepsAll(QueryPass([]), tools);
  }
}

/** ToolsShell: the sidebar around every tool page. */
module ToolsShell {
  import opened Seqs
  import opened Text
  import opened ToolDefinitions
  import opened ToolRegistry
  import opened Favorites
  import opened ToolFilters

  /** The sidebar shows at most this many entries. */
  const PreviewSize := 8

  class ToolsShell {
    const favs: FavoritesService
    var sidebarOpen: bool
    var query: string
    var category: CategoryFilter
    const allTools: seq<ToolDefinition>
    const allCount: nat
    const categories: seq<ToolCategory>
    var favoritesCount: nat

    /** Field initialisers plus the constructor's `refreshFavCount()`. */
    constructor (favs: FavoritesService)
      requires favs.Valid()
      ensures this.favs == favs
      ensures !sidebarOpen && query == "" && category == AllCategories
      ensures allTools == GetAll() && allCount == |allTools| && categories == Categories(allTools)
      ensures favoritesCount == |favs.GetAllIds()|
    {
      this.favs := favs;
      sidebarOpen := false;
      query := "";
      category := AllCategories;
      allTools := GetAll();
      allCount := |GetAll()|;
      categories := Categories(GetAll());
      favoritesCount := |favs.GetAllIds()|;
    }

    /** `filteredTools`: the tools of the selected category whose haystack
        contains the normalised query, in catalogue order. */
    function FilteredTools(): (r: seq<ToolDefinition>)
      reads this
      ensures IsSubseq(r, allTools)
      ensures forall t :: t in r <==>
        t in allTools &&
        (category.OnlyCategory? ==> t.category == category.c) &&
        (!IsBlank(query) ==> Contains(ViewHaystack(t), NormalizeQuery(query)))
    {
      var q := NormalizeQuery(query);
      FilterTwiceIsSubseq(CategoryPass(category), QueryPass(q), allTools);
      Filter(QueryPass(q), Filter(CategoryPass(category), allTools))
    }

    /** `filteredCount` */
    function FilteredCount(): (n: nat)
      reads this
      ensures n <= |allTools|
      ensures n == |FilteredTools()|
    {
      var r := FilteredTools();
      SubseqLength(r, allTools);
      |r|
    }

    /** `filteredPreview`: the first eight filtered tools, or all when fewer. */
    function FilteredPreview(): (r: seq<ToolDefinition>)
      reads this
      ensures |r| == if |FilteredTools()| < PreviewSize then |FilteredTools()| else PreviewSize
      ensures r == FilteredTools()[..|r|]
    {
      var f := FilteredTools();
      if |f| < PreviewSize then f else f[..PreviewSize]
    }

    method ToggleSidebar()
      modifies this
      ensures sidebarOpen == !old(sidebarOpen)
      ensures query == old(query) && category == old(category) && favoritesCount == old(favoritesCount)
    {
      sidebarOpen := !sidebarOpen;
    }

    method CloseSidebarOnMobile()
      modifies this
      ensures !sidebarOpen
      ensures query == old(query) && category == old(category) && favoritesCount == old(favoritesCount)
    {
      if sidebarOpen {
        sidebarOpen := false;
      }
    }

    method SetQuery(v: string)
      modifies this
      ensures query == v
      ensures sidebarOpen == old(sidebarOpen) && category == old(category) && favoritesCount == old(favoritesCount)
    {
      query := v;
    }

    method SetCategory(v: CategoryFilter)
      modifies this
      ensures category == v
      ensures sidebarOpen == old(sidebarOpen) && query == old(query) && favoritesCount == old(favoritesCount)
    {
      category := v;
    }

    /** `resetFilters`: afterwards every tool is listed again. */
    method ResetFilters()
      modifies this
      ensures query == "" && category == AllCategories
      ensures FilteredTools() == allTools
      ensures sidebarOpen == old(sidebarOpen) && favoritesCount == old(favoritesCount)
    {
      query := "";
      category := AllCategories;
      assert NormalizeQuery(query) == [];
      UnfilteredKeepsAll(allTools);
      assert FilteredTools() == Filter(QueryPass([]), Filter(CategoryPass(AllCategories), allTools));
    }

    method RefreshFavCount()
      requires favs.Valid()
      modifies this
      ensures favoritesCount == |favs.GetAllIds()|
      ensures sidebarOpen == old(sidebarOpen) && query == old(query) && category == old(category)
    {
      favoritesCount := |favs.GetAllIds()|;
    }
  }
}

/** Home: the landing page's searchable, filterable tool grid. */
module Home {
  import opened Seqs
  import opened Text
  import opened ToolDefinitions
  import opened ToolRegistry
  import opened Favorites
  import opened ToolFilters

  /** `'all' | 'favorites'` */
  datatype FilterMode = AllTools | FavoritesOnly

  /** `mode === 'favorites' ? favIds.has(t.id) : true` */
  function ModePass(mode: FilterMode, favIds: seq<string>): ToolDefinition -> bool {
    (t: ToolDefinition) => mode.AllTools? || t.id in favIds
  }

  /** The three chained filters of `filteredTools`. */
  function HomeFilter(tools: seq<ToolDefinition>, cat: CategoryFilter, mode: FilterMode,
                      favIds: seq<string>, q: string): seq<ToolDefinition>
  {
    Filter(QueryPass(q), Filter(ModePass(mode, favIds), Filter(CategoryPass(cat), tools)))
  }

  lemma HomeFilterFacts(tools: seq<ToolDefinition>, cat: CategoryFilter, mode: FilterMode,
                        favIds: seq<string>, q: string)
    ensures IsSubseq(HomeFilter(tools, cat, mode, favIds, q), tools)
    ensures forall t :: t in HomeFilter(tools, cat, mode, favIds, q) <==>
      t in tools &&
      (cat.OnlyCategory? ==> t.category == cat.c) &&
      (mode.FavoritesOnly? ==> t.id in favIds) &&
      (q != [] ==> Contains(ViewHaystack(t), q))
    ensures cat == AllCategories && mode == AllTools && q == [] ==>
      HomeFilter(tools, cat, mode, favIds, q) == tools
  {
    var byCategory := Filter(CategoryPass(cat), tools);
    var byMode := Filter(ModePass(mode, favIds), byCategory);
    FilterTwiceIsSubseq(CategoryPass(cat), ModePass(mode, favIds), tools);
    FilterIsSubseq(QueryPass(q), byMode);
    SubseqTrans(Filter(QueryPass(q), byMode), byMode, tools);
    if cat == AllCategories && mode == AllTools && q == [] {
      FilterKeepsAll(CategoryPass(cat), tools);
      FilterKeepsAll(ModePass(mode, favIds), tools);
      FilterKeepsAll(QueryPass(q), tools);
    }
  }

  class Home {
    const favs: FavoritesService
    var query: string
    var category: CategoryFilter
    var mode: FilterMode
    const allTools: seq<ToolDefinition>
    const categories: seq<ToolCategory>

    constructor (favs: FavoritesService)
      ensures this.favs == favs
      ensures query == "" && category == AllCategories && mode == AllTools
      ensures allTools == GetAll() && categories == Categories(allTools)
    {
      this.favs := favs;
      query := "";
      category := AllCategories;
      mode := AllTools;
      allTools := GetAll();
      categories := Categories(GetAll());
    }

    /** `filteredTools`: category, then favourites (in 'favorites' mode), then
        query; an unfiltered page lists the whole catalogue. */
    function FilteredTools(): (r: seq<ToolDefinition>)
      reads this, favs
      requires favs.Valid()
      ensures IsSubseq(r, allTools)
      ensures forall t :: t in r <==>
        t in allTools &&
        (category.OnlyCategory? ==> t.category == category.c) &&
        (mode.FavoritesOnly? ==> favs.IsFavorite(t.id)) &&
        (!IsBlank(query) ==> Contains(ViewHaystack(t), NormalizeQuery(query)))
      ensures category == AllCategories && mode == AllTools && IsBlank(query) ==> r == allTools
    {
      var favIds := favs.GetAllIds();
      HomeFilterFacts(allTools, category, mode, favIds, NormalizeQuery(query));
      HomeFilter(allTools, category, mode, favIds, NormalizeQuery(query))
    }

    method SetQuery(v: string)
      modifies this
      ensures query == v && category == old(category) && mode == old(mode)
    {
      query := v;
    }

    method SetCategory(v: CategoryFilter)
      modifies this
      ensures category == v && query == old(query) && mode == old(mode)
    {
      category := v;
    }

    method SetMode(v: FilterMode)
      modifies this
      ensures mode == v && query == old(query) && category == old(category)
    {
      mode := v;
    }

    /** `reset` */
    method Reset()
      modifies this
      ensures query == "" && category == AllCategories && mode == AllTools
    {
      query := "";
      category := AllCategories;
      mode := AllTools;
    }

    /** `isFav` */
    function IsFav(id: string): (b: bool)
      reads this, favs
      ensures b <==> id in favs.favorites
    {
      favs.IsFavorite(id)
    }

    /** `toggleFav`: flips the id in the favourites service and re-sets the
        query to its own value to trigger recomputation. */
    method ToggleFav(id: string)
      requires favs.Valid()
      modifies this, favs
      ensures favs.Valid()
      ensures IsFav(id) == !old(IsFav(id))
      ensures forall x :: x != id ==> IsFav(x) == old(IsFav(x))
      ensures query == old(query) && category == old(category) && mode == old(mode)
    {
      favs.Toggle(id);
      query := query;
    }
  }
}
