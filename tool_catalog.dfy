/** The tool metadata record (src/app/core/models/tool-definition.ts). */
module ToolDefinitions {
  import opened Wrappers

  datatype ToolCategory = Datos | Texto | Seguridad | CssUi | Fechas | Api | Utilidades

  /** The string literal each category is in the source's union type. */
  function CategoryName(c: ToolCategory): string {
    match c
    case Datos => "Datos"
    case Texto => "Texto"
    case Seguridad => "Seguridad"
    case CssUi => "CSS/UI"
    case Fechas => "Fechas"
    case Api => "API"
    case Utilidades => "Utilidades"
  }

  /** The template-literal type `/${string}`: an absolute route. */
  type Route = s: string | |s| > 0 && s[0] == '/' witness "/"

  datatype ToolDefinition = ToolDefinition(
    id: string,
    name: string,
    description: string,
    category: ToolCategory,
    route: Route,
    icon: Option<string>,
    keywords: Option<seq<string>>,
    isBeta: Option<bool>,
    isNew: Option<bool>)

  /** The optional keyword list, `t.keywords ?? []`. */
  function KeywordsOf(t: ToolDefinition): seq<string> {
    t.keywords.GetOr([])
  }
}

/** ToolRegistryService: a read-only catalogue and its queries. */
module ToolRegistry {
  import opened Wrappers
  import opened Seqs
  import opened Text
  import opened ToolDefinitions

  /** The catalogue, in declaration order. */
  const Tools: seq<ToolDefinition> := [
    ToolDefinition("json", "JSON Tools", "Validar, formatear/minificar y utilidades de JSON.",
      Datos, "/tools/json", Some("data_object"),
      Some(["json", "pretty", "minify", "jsonpath", "schema"]), None, Some(true)),
    ToolDefinition("regex", "Regex Playground", "Probar expresiones regulares y reemplazos.",
      Texto, "/tools/regex", Some("regular_expression"),
      Some(["regex", "replace", "match", "groups"]), None, None),
    ToolDefinition("encode", "Encode/Decode", "Base64, URL encode/decode y HTML entities.",
      Texto, "/tools/encode", Some("code"),
      Some(["base64", "urlencode", "urldecode", "html entities"]), None, None),
    ToolDefinition("jwt", "JWT Decoder", "Decodifica header/payload y muestra expiración.",
      Seguridad, "/tools/jwt", Some("key"),
      Some(["jwt", "token", "claims", "exp"]), Some(true), None),
    ToolDefinition("css", "CSS Tools", "Sombras, gradientes, clamp() y convertidores.",
      CssUi, "/tools/css", Some("palette"),
      Some(["css", "shadow", "gradient", "clamp", "rem"]), None, None),
    ToolDefinition("contrast", "Contraste & Colores", "Conversión de color y contraste WCAG.",
      CssUi, "/tools/contrast", Some("contrast"),
      Some(["wcag", "contrast", "hex", "rgb", "hsl"]), None, None),
    ToolDefinition("http", "HTTP Client", "Construye requests con headers/params y guarda colecciones.",
      Api, "/tools/http", Some("http"),
      Some(["http", "fetch", "headers", "api", "request"]), Some(true), None),
    ToolDefinition("git", "Git Helpers", "Conventional Commits, plantillas y cheatsheets.",
      Utilidades, "/tools/git", Some("merge"),
      Some(["git", "commits", "conventional commits", "pr"]), None, None),
    ToolDefinition("dates", "Timestamp & Dates", "Unix ms/s ⇄ fecha, ISO y diffs.",
      Fechas, "/tools/dates", Some("schedule"),
      Some(["timestamp", "unix", "iso", "timezone", "date diff"]), None, None),
    ToolDefinition("linter", "Formatter/Linter Runner", "Formato rápido para snippets (Prettier/ESLint).",
      Utilidades, "/tools/linter", Some("format_align_left"),
      Some(["prettier", "eslint", "format", "lint"]), Some(true), None)
  ]

  /** `getAll`: a copy of the catalogue, same entries in the same order. */
  function GetAll(): (r: seq<ToolDefinition>)
    ensures |r| == 10
    ensures forall i :: 0 <= i < |r| ==> r[i] == Tools[i]
  {
    Tools[..]
  }

  /** `Array.prototype.find` on the `id` field. */
  function FindById(tools: seq<ToolDefinition>, id: string): (r: Option<ToolDefinition>)
    ensures r.None? <==> forall k :: 0 <= k < |tools| ==> tools[k].id != id
    ensures r.Some? ==> exists k :: 0 <= k < |tools| && tools[k] == r.value && r.value.id == id &&
                                    forall j :: 0 <= j < k ==> tools[j].id != id
  {
    if tools == [] then None
    else if tools[0].id == id then Some(tools[0])
    else
      var r := FindById(tools[1..], id);
      assert r.Some? ==> exists k :: 0 <= k < |tools[1..]| && tools[1..][k] == r.value && r.value.id == id &&
                                     forall j :: 0 <= j < k ==> tools[1..][j].id != id;
      assert r.Some? ==> exists k :: 1 <= k < |tools| && tools[k] == r.value && r.value.id == id &&
                                     forall j :: 1 <= j < k ==> tools[j].id != id;
      r
  }

  /** `getById`: the first catalogue entry with that id, or `undefined`. */
  function GetById(id: string): (r: Option<ToolDefinition>)
    ensures r.None? <==> forall k :: 0 <= k < |Tools| ==> Tools[k].id != id
    ensures r.Some? ==> r.value in Tools && r.value.id == id
  {
    FindById(Tools, id)
  }

  /** The `filter` callback `t => t.category === category`. */
  function InCategory(category: ToolCategory): ToolDefinition -> bool {
    (t: ToolDefinition) => t.category == category
  }

  /** `getByCategory`: exactly the entries of that category, in catalogue order. */
  function GetByCategory(category: ToolCategory): (r: seq<ToolDefinition>)
    ensures forall t :: t in r <==> t in Tools && t.category == category
    ensures IsSubseq(r, Tools)
  {
    FilterIsSubseq(InCategory(category), Tools);
    Filter(InCategory(category), Tools)
  }

  /** The lower-cased text `search` looks in: name, description, category,
      keywords, id and route joined by single spaces. */
  function SearchHaystack(t: ToolDefinition): string {
    Lower(Join([t.name, t.description, CategoryName(t.category)] + KeywordsOf(t) + [t.id, t.route], " "))
  }

  /** The `filter` callback of `search` for a normalised query. */
  function SearchFilter(q: string): ToolDefinition -> bool {
    (t: ToolDefinition) => Contains(SearchHaystack(t), q)
  }

  /** `search`: a blank term lists the whole catalogue; otherwise the entries
      whose haystack contains the normalised query. */
  function Search(term: string): (r: seq<ToolDefinition>)
    ensures IsBlank(term) ==> r == Tools
    ensures forall t :: t in r <==> t in Tools && Contains(SearchHaystack(t), NormalizeQuery(term))
  {
    var q := NormalizeQuery(term);
    if q == [] then
      assert forall t :: Contains(SearchHaystack(t), q) by {
        forall t ensures Contains(SearchHaystack(t), q) { assert OccursAt(SearchHaystack(t), q, 0); }
      }
      GetAll()
    else
      Filter(SearchFilter(q), Tools)
  }

  /** Search results keep catalogue order: they are a subsequence of it. */
  lemma SearchIsSubseq(term: string)
    ensures IsSubseq(Search(term), Tools)
  {
    var q := NormalizeQuery(term);
    if q == [] {
      assert Search(term) == Tools;
      SubseqRefl(Tools);
    } else {
      FilterIsSubseq(SearchFilter(q), Tools);
    }
  }

  /** A longer query can only narrow the results: if the first normalised
      query occurs in the second, the second's results are a subsequence of
      the first's. */
  lemma SearchMonotone(term1: string, term2: string)
    requires Contains(NormalizeQuery(term2), NormalizeQuery(term1))
    ensures IsSubseq(Search(term2), Search(term1))
  {
    var q1, q2 := NormalizeQuery(term1), NormalizeQuery(term2);
    var p1, p2 := SearchFilter(q1), SearchFilter(q2);
    forall t | p2(t) ensures p1(t) {
      ContainsTrans(SearchHaystack(t), q2, q1);
    }
    assert forall t :: Contains(SearchHaystack(t), []) by {
      forall t ensures Contains(SearchHaystack(t), []) { assert OccursAt(SearchHaystack(t), [], 0); }
    }
    if q2 == [] {
      assert q1 == [];
      SubseqRefl(Tools);
    } else if q1 == [] {
      FilterIsSubseq(p2, Tools);
    } else {
      FilterMonotone(p2, p1, Tools);
    }
  }

  /** The catalogue's ids are pairwise distinct. */
  lemma CatalogueIdsDistinct()
    ensures forall i, j :: 0 <= i < j < |Tools| ==> Tools[i].id != Tools[j].id
  {
  }

  /** `getById` of a listed id returns that very entry. */
  lemma GetByIdOfListed(k: nat)
    requires k < |Tools|
    ensures GetById(Tools[k].id) == Some(Tools[k])
  {
    CatalogueIdsDistinct();
  }
}
