/** The page assembler of the static site: which page the address bar
    selects, and which HTML fragments make up that page's main area.
    Network reads are a function from a URL to its text, `None` standing
    for a failed request. */
module Assembler {
  import opened Wrappers

  const INDEX := "index.html"
  const LANDING := "landing"
  const AURORA := "aurora"
  const HEADER_URL := "/partials/header.html"
  const FOOTER_URL := "/partials/footer.html"
  const HEADER_FALLBACK := "<header></header>"
  const FOOTER_FALLBACK := "<footer></footer>"

  /** `routeKey`: the path without its one leading '/', or "index.html" when
      nothing is left. An empty `location.pathname` is read as '/'. */
  function RouteKey(pathname: string): (k: string)
    ensures k != ""
    ensures pathname == "" || pathname == "/" ==> k == INDEX
    ensures |pathname| >= 2 && pathname[0] == '/' ==> k == pathname[1..]
    ensures pathname != "" && pathname[0] != '/' ==> k == pathname
  {
    var p := if pathname == "" then "/" else pathname;
    var stripped := if p[0] == '/' then p[1..] else p;
    if stripped == "" then INDEX else stripped
  }

  /** Putting a '/' in front of a key and routing it gives the key back. */
  lemma RouteKeyOfPath(k: string)
    requires k != ""
    ensures RouteKey("/" + k) == k
  {
  }

  /** Only one '/' is removed: "//x" routes to "/x". */
  lemma RouteKeyStripsOnce(rest: string)
    ensures RouteKey("//" + rest) == "/" + rest
  {
    assert ("//" + rest)[1..] == "/" + rest;
  }

  /** The routing key of a path names the root page exactly when the path
      is empty, "/", "index.html" or "/index.html". */
  lemma RouteKeyIndex(pathname: string)
    ensures RouteKey(pathname) == INDEX <==>
      pathname in {"", "/", INDEX, "/" + INDEX}
  {
    if pathname == "" || pathname == "/" {
    } else if pathname[0] == '/' {
      assert |pathname| >= 2;
      if pathname[1..] == INDEX {
        assert pathname == "/" + INDEX;
      } else {
        assert pathname != "/" + INDEX && pathname != INDEX;
      }
    } else {
      assert pathname != "/" + INDEX;
    }
  }

  /** `routes.routes[rk] || 'landing'`: the routed page key when the table
      exists and maps the key to a non-empty name, "landing" otherwise. */
  function PageKey(routes: Option<map<string, string>>, rk: string): (key: string)
    ensures key != ""
    ensures routes.Some? && rk in routes.value && routes.value[rk] != "" ==> key == routes.value[rk]
    ensures routes.None? || rk !in routes.value || routes.value[rk] == "" ==> key == LANDING
  {
    if routes.Some? && rk in routes.value && routes.value[rk] != "" then routes.value[rk] else LANDING
  }

  /** Every page key but "landing" comes from the routing table. */
  lemma PageKeyFromTable(routes: Option<map<string, string>>, rk: string)
    requires PageKey(routes, rk) != LANDING
    ensures routes.Some? && rk in routes.value && routes.value[rk] == PageKey(routes, rk)
  {
  }

  /** A content block of a page as the pages document lists it; an absent
      `path` is the empty string. */
  datatype Block = Block(kind: string, path: string)

  datatype Page = Page(blocks: seq<Block>)

  /** `pages[pageKey] || { blocks: [] }`. */
  function ResolvePage(pages: map<string, Page>, key: string): (page: Page)
    ensures key in pages ==> page == pages[key]
    ensures key !in pages ==> page == Page([])
  {
    if key in pages then pages[key] else Page([])
  }

  /** A block contributes to the page exactly when it is a partial with a
      path. */
  predicate Emits(b: Block) {
    b.kind == "partial" && b.path != ""
  }

  /** The comment that stands in for a partial that could not be fetched. */
  function Missing(path: string): string {
    "<!-- missing: " + path + " -->"
  }

  /** The HTML one emitting block contributes. */
  function Fragment(b: Block, fetch: string -> Option<string>): (html: string)
    ensures fetch(b.path).Some? ==> html == fetch(b.path).value
    ensures fetch(b.path).None? ==> html == Missing(b.path)
  {
    match fetch(b.path)
    case Some(text) => text
    case None => Missing(b.path)
  }

  /** The fragments of a block list, in block order. */
  function BlocksHtml(blocks: seq<Block>, fetch: string -> Option<string>): seq<string>
    decreases |blocks|
  {
    if blocks == [] then []
    else
      var last := blocks[|blocks| - 1];
      BlocksHtml(blocks[..|blocks| - 1], fetch) + (if Emits(last) then [Fragment(last, fetch)] else [])
  }

  /** How many blocks of a list emit a fragment. */
  function CountEmits(blocks: seq<Block>): nat
    decreases |blocks|
  {
    if blocks == [] then 0
    else CountEmits(blocks[..|blocks| - 1]) + (if Emits(blocks[|blocks| - 1]) then 1 else 0)
  }

  /** Block collection distributes over concatenation of block lists. */
  lemma {:induction false} BlocksHtmlConcat(a: seq<Block>, b: seq<Block>, fetch: string -> Option<string>)
    ensures BlocksHtml(a + b, fetch) == BlocksHtml(a, fetch) + BlocksHtml(b, fetch)
    ensures CountEmits(a + b) == CountEmits(a) + CountEmits(b)
    decreases |b|
  {
    if b == [] {
      assert a + b == a;
    } else {
      var b' := b[..|b| - 1];
      assert (a + b)[..|a + b| - 1] == a + b';
      BlocksHtmlConcat(a, b', fetch);
    }
  }

  /** One entry per emitting block: the list is as long as the count of
      emitting blocks. */
  lemma {:induction false} BlocksHtmlLength(blocks: seq<Block>, fetch: string -> Option<string>)
    ensures |BlocksHtml(blocks, fetch)| == CountEmits(blocks)
    decreases |blocks|
  {
    if blocks != [] {
      BlocksHtmlLength(blocks[..|blocks| - 1], fetch);
    }
  }

  /** The block at `j`, if it emits, contributes its fragment at the position
      given by the number of emitting blocks before it. */
  lemma BlocksHtmlAt(blocks: seq<Block>, fetch: string -> Option<string>, j: int)
    requires 0 <= j < |blocks| && Emits(blocks[j])
    ensures CountEmits(blocks[..j]) < |BlocksHtml(blocks, fetch)|
    ensures BlocksHtml(blocks, fetch)[CountEmits(blocks[..j])] == Fragment(blocks[j], fetch)
  {
    var pre, rest := blocks[..j], blocks[j + 1..];
    assert blocks == pre + [blocks[j]] + rest;
    BlocksHtmlConcat(pre + [blocks[j]], rest, fetch);
    BlocksHtmlConcat(pre, [blocks[j]], fetch);
    BlocksHtmlSingle(blocks[j], fetch);
    BlocksHtmlLength(pre, fetch);
  }

  /** A single block contributes its fragment or nothing. */
  lemma BlocksHtmlSingle(b: Block, fetch: string -> Option<string>)
    ensures BlocksHtml([b], fetch) == if Emits(b) then [Fragment(b, fetch)] else []
  {
    assert [b][..0] == [];
  }

  /** A block that is not a partial with a path contributes nothing. */
  lemma BlocksHtmlSkipsBlock(pre: seq<Block>, b: Block, rest: seq<Block>, fetch: string -> Option<string>)
    requires !Emits(b)
    ensures BlocksHtml(pre + [b] + rest, fetch) == BlocksHtml(pre + rest, fetch)
  {
    BlocksHtmlConcat(pre + [b], rest, fetch);
    BlocksHtmlConcat(pre, [b], fetch);
    BlocksHtmlSingle(b, fetch);
    BlocksHtmlConcat(pre, rest, fetch);
  }

  /** Removing the block at `j` changes nothing when it does not emit. */
  lemma BlocksHtmlSkips(blocks: seq<Block>, fetch: string -> Option<string>, j: int)
    requires 0 <= j < |blocks| && !Emits(blocks[j])
    ensures BlocksHtml(blocks[..j] + blocks[j + 1..], fetch) == BlocksHtml(blocks, fetch)
  {
    var pre, b, rest := blocks[..j], blocks[j], blocks[j + 1..];
    assert blocks == pre + [b] + rest;
    BlocksHtmlSkipsBlock(pre, b, rest, fetch);
  }

  /** The `for ... of page.blocks` loop of `assemble`, pushing one fragment
      per emitting block. */
  method CollectBlocks(blocks: seq<Block>, fetch: string -> Option<string>) returns (html: seq<string>)
    ensures html == BlocksHtml(blocks, fetch)
  {
    html := [];
    var i := 0;
    while i < |blocks|
      invariant 0 <= i <= |blocks|
      invariant html == BlocksHtml(blocks[..i], fetch)
    {
      var blk := blocks[i];
      assert blocks[..i + 1][..i] == blocks[..i];
      if blk.kind == "partial" && blk.path != "" {
        match fetch(blk.path) {
          case Some(text) => html := html + [text];
          case None => html := html + [Missing(blk.path)];
        }
      }
      i := i + 1;
    }
    assert blocks[..i] == blocks;
  }

  /** The routing document; its `routes` member may be absent. */
  datatype Routes = Routes(routes: Option<map<string, string>>)

  /** What `assemble` puts into the `#app` root: the header, the fragments of
      the main area, the footer, and whether the gated page is hydrated. */
  datatype Shell = Shell(header: string, main: seq<string>, footer: string, pageKey: string, hydrate: bool)

  /** `assemble`. It renders nothing when there is no `#app` root or when the
      routing or pages document cannot be fetched; a missing header or footer
      is replaced by an empty element. */
  method Assemble(hasApp: bool, pathname: string, fetch: string -> Option<string>,
                  routesDoc: Option<Routes>, pagesDoc: Option<map<string, Page>>)
    returns (shell: Option<Shell>)
    ensures shell.Some? <==> hasApp && routesDoc.Some? && pagesDoc.Some?
    ensures shell.Some? ==>
      var key := PageKey(routesDoc.value.routes, RouteKey(pathname));
      && shell.value.pageKey == key
      && shell.value.header == fetch(HEADER_URL).GetOr(HEADER_FALLBACK)
      && shell.value.footer == fetch(FOOTER_URL).GetOr(FOOTER_FALLBACK)
      && shell.value.main == BlocksHtml(ResolvePage(pagesDoc.value, key).blocks, fetch)
      && (shell.value.hydrate <==> key == AURORA)
  {
    if !hasApp {
      return None;
    }
    var header := fetch(HEADER_URL).GetOr(HEADER_FALLBACK);
    var footer := fetch(FOOTER_URL).GetOr(FOOTER_FALLBACK);
    if routesDoc.None? || pagesDoc.None? {
      return None;
    }
    var rk := RouteKey(pathname);
    var key := PageKey(routesDoc.value.routes, rk);
    var page := ResolvePage(pagesDoc.value, key);
    var html := CollectBlocks(page.blocks, fetch);
    shell := Some(Shell(header, html, footer, key, key == AURORA));
  }

  /** A page key that is not in the pages document yields an empty main
      area, whatever the fetches return. */
  lemma UnknownPageEmpty(pages: map<string, Page>, key: string, fetch: string -> Option<string>)
    requires key !in pages
    ensures BlocksHtml(ResolvePage(pages, key).blocks, fetch) == []
  {
  }
}
