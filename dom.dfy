/** The preview iframe's document, reduced to the element children of its head
    and body, and the three routines of the editor item that inject user code
    into it (loadHtml, loadCss, loadJS). */
module Dom {
  import opened Wrappers

  /** The three kinds of user code an editor item holds. */
  datatype Kind = Html | Css | Js

  /** An element child of head or body: tag name, id attribute, innerHTML. */
  datatype Node = Node(tag: string, id: string, content: string)

  /** A document: the element children of head and of body, in order. */
  datatype Doc = Doc(head: seq<Node>, body: seq<Node>)

  /** Where querySelector found its node: under head or under body, at an index. */
  datatype Location = InHead(index: nat) | InBody(index: nat)

  /** The DOMException that removeChild throws when its argument is not a child. */
  datatype DomError = NotFoundError

  datatype Result<T> = Ok(value: T) | Err(error: DomError)

  const HtmlId: string := "customHTML"
  const CssId: string := "customCSS"
  const JsId: string := "customJS"

  /** The id that marks the node injected for kind `k`. */
  function ReservedId(k: Kind): string {
    match k
    case Html => HtmlId
    case Css => CssId
    case Js => JsId
  }

  /** The element created for kind `k`. */
  function Tag(k: Kind): string {
    match k
    case Html => "div"
    case Css => "style"
    case Js => "script"
  }

  /** CSS is appended to head; HTML and JS to body. */
  predicate GoesToHead(k: Kind) {
    k == Css
  }

  /** User JS wrapped so that an exception it throws is swallowed. */
  function Guarded(code: string): string {
    "try{" + code + "}catch(e){}"
  }

  /** The innerHTML given to the injected node. */
  function Content(k: Kind, code: string): string {
    if k == Js then Guarded(code) else code
  }

  /** The node that a load of kind `k` creates and appends. */
  function Fresh(k: Kind, code: string): Node {
    Node(Tag(k), ReservedId(k), Content(k, code))
  }

  /** The children of the parent kind `k` is appended to, and of the other one. */
  function Parent(d: Doc, k: Kind): seq<Node> {
    if GoesToHead(k) then d.head else d.body
  }

  function Other(d: Doc, k: Kind): seq<Node> {
    if GoesToHead(k) then d.body else d.head
  }

  function WithParent(d: Doc, k: Kind, s: seq<Node>): Doc {
    if GoesToHead(k) then d.(head := s) else d.(body := s)
  }

  /** The nodes of `s` carrying `id`, in order. */
  function Only(s: seq<Node>, id: string): seq<Node> {
    if s == [] then []
    else (if s[0].id == id then [s[0]] else []) + Only(s[1..], id)
  }

  /** The nodes of `s` not carrying `id`, in order. */
  function Without(s: seq<Node>, id: string): seq<Node> {
    if s == [] then []
    else (if s[0].id == id then [] else [s[0]]) + Without(s[1..], id)
  }

  /** `s` with its first node carrying `id` removed, if there is one. */
  function RemoveFirst(s: seq<Node>, id: string): seq<Node> {
    if s == [] then []
    else if s[0].id == id then s[1..]
    else [s[0]] + RemoveFirst(s[1..], id)
  }

  function RemoveAt(s: seq<Node>, i: nat): seq<Node>
    requires i < |s|
  {
    s[..i] + s[i + 1..]
  }

  /** The index of the first node of `s` carrying `id`. */
  function IndexOf(s: seq<Node>, id: string): (r: Option<nat>)
    ensures r.Some? ==> r.value < |s| && s[r.value].id == id
    ensures r.Some? ==> forall j :: 0 <= j < r.value ==> s[j].id != id
    ensures r.None? <==> forall j :: 0 <= j < |s| ==> s[j].id != id
  {
    if s == [] then None
    else if s[0].id == id then Some(0)
    else match IndexOf(s[1..], id)
      case None => None
      case Some(i) => Some(i + 1)
  }

  /** The first match in a concatenation is the first match in its front
      part, or failing that the first in its back part, shifted. */
  lemma {:induction false} IndexOfAppend(s: seq<Node>, t: seq<Node>, id: string)
    ensures IndexOf(s + t, id) ==
              match IndexOf(s, id)
              case Some(i) => Some(i)
              case None =>
                match IndexOf(t, id)
                case Some(j) => Some(|s| + j)
                case None => None
  {
    if s == [] {
      assert s + t == t;
    } else {
      assert (s + t)[0] == s[0];
      assert (s + t)[1..] == s[1..] + t;
      IndexOfAppend(s[1..], t, id);
    }
  }

  /** querySelector('#' + id): the first node carrying `id` in document
      order, where every child of head precedes every child of body. */
  function QuerySelector(d: Doc, id: string): (r: Option<Location>)
    ensures r.None? <==> IndexOf(d.head + d.body, id).None?
    ensures r.Some? && r.value.InHead? ==> r.value.index < |d.head|
    ensures r.Some? && r.value.InHead? ==> IndexOf(d.head + d.body, id) == Some(r.value.index)
    ensures r.Some? && r.value.InBody? ==>
              IndexOf(d.head + d.body, id) == Some(|d.head| + r.value.index)
  {
    IndexOfAppend(d.head, d.body, id);
    match IndexOf(d.head, id)
    case Some(i) => Some(InHead(i))
    case None =>
      match IndexOf(d.body, id)
      case Some(i) => Some(InBody(i))
      case None => None
  }

  /** What loadHtml, loadCss or loadJS (by `k`) does to the document: find the
      node carrying the reserved id; if there is one, remove it from the
      parent kind `k` uses (which throws when the node sits in the other
      parent); then append a fresh node with that id and the content. */
  function Load(d: Doc, k: Kind, code: string): Result<Doc> {
    var node := Fresh(k, code);
    match QuerySelector(d, ReservedId(k))
    case None => Ok(WithParent(d, k, Parent(d, k) + [node]))
    case Some(InHead(i)) =>
      if GoesToHead(k) then Ok(d.(head := RemoveAt(d.head, i) + [node]))
      else Err(NotFoundError)
    case Some(InBody(i)) =>
      if GoesToHead(k) then Err(NotFoundError)
      else Ok(d.(body := RemoveAt(d.body, i) + [node]))
  }

  /** The condition under which a load of kind `k` behaves as intended: no
      node with its reserved id in the other parent, at most one in its own. */
  ghost predicate Injectable(d: Doc, k: Kind) {
    Only(Other(d, k), ReservedId(k)) == [] && |Only(Parent(d, k), ReservedId(k))| <= 1
  }

  /** The preview shows `code` for kind `k`: the only node with its reserved
      id is the fresh node a load of `code` would create, in its own parent. */
  ghost predicate Shows(d: Doc, k: Kind, code: string) {
    Only(Parent(d, k), ReservedId(k)) == [Fresh(k, code)]
  }

  /** The document invariant: every kind is injectable. */
  ghost predicate WellFormed(d: Doc) {
    forall k: Kind :: Injectable(d, k)
  }

  // ---------------------------------------------------------------------
  // Facts about the sequence helpers.

  lemma {:induction false} OnlyAppend(s: seq<Node>, t: seq<Node>, id: string)
    ensures Only(s + t, id) == Only(s, id) + Only(t, id)
  {
    if s == [] {
      assert s + t == t;
    } else {
      var st := s + t;
      assert st[0] == s[0];
      assert st[1..] == s[1..] + t;
      var h := if s[0].id == id then [s[0]] else [];
      assert Only(st, id) == h + Only(s[1..] + t, id);
      OnlyAppend(s[1..], t, id);
      assert h + (Only(s[1..], id) + Only(t, id)) == (h + Only(s[1..], id)) + Only(t, id);
    }
  }

  lemma {:induction false} WithoutAppend(s: seq<Node>, t: seq<Node>, id: string)
    ensures Without(s + t, id) == Without(s, id) + Without(t, id)
  {
    if s == [] {
      assert s + t == t;
    } else {
      var st := s + t;
      assert st[0] == s[0];
      assert st[1..] == s[1..] + t;
      var h := if s[0].id == id then [] else [s[0]];
      assert Without(st, id) == h + Without(s[1..] + t, id);
      WithoutAppend(s[1..], t, id);
      assert h + (Without(s[1..], id) + Without(t, id)) == (h + Without(s[1..], id)) + Without(t, id);
    }
  }

  lemma {:induction false} OnlyEmpty(s: seq<Node>, id: string)
    ensures Only(s, id) == [] <==> IndexOf(s, id).None?
  {
    if s != [] {
      OnlyEmpty(s[1..], id);
    }
  }

  lemma {:induction false} RemoveFirstAbsent(s: seq<Node>, id: string)
    requires forall j :: 0 <= j < |s| ==> s[j].id != id
    ensures RemoveFirst(s, id) == s
  {
    if s != [] {
      assert s[0].id != id;
      RemoveFirstAbsent(s[1..], id);
    }
  }

  lemma {:induction false} RemoveFirstAt(s: seq<Node>, id: string, i: nat)
    requires i < |s| && s[i].id == id
    requires forall j :: 0 <= j < i ==> s[j].id != id
    ensures RemoveFirst(s, id) == s[..i] + s[i + 1..]
  {
    if i == 0 {
      assert s[..0] + s[1..] == s[1..];
    } else {
      assert s[0].id != id;
      var t := s[1..];
      RemoveFirstAt(t, id, i - 1);
      assert t[..i - 1] == s[1..i] && t[i..] == s[i + 1..];
      assert [s[0]] + s[1..i] == s[..i];
    }
  }

  /** Removing at the index querySelector reports is removing the first match. */
  lemma RemoveAtIndexOf(s: seq<Node>, id: string)
    ensures IndexOf(s, id).None? ==> RemoveFirst(s, id) == s
    ensures IndexOf(s, id).Some? ==> RemoveFirst(s, id) == RemoveAt(s, IndexOf(s, id).value)
  {
    match IndexOf(s, id)
    case None => RemoveFirstAbsent(s, id);
    case Some(i) => RemoveFirstAt(s, id, i);
  }

  lemma {:induction false} OnlyRemoveFirst(s: seq<Node>, id: string)
    ensures Only(RemoveFirst(s, id), id) == if Only(s, id) == [] then [] else Only(s, id)[1..]
  {
    if s != [] && s[0].id != id {
      OnlyRemoveFirst(s[1..], id);
      assert RemoveFirst(s, id) == [s[0]] + RemoveFirst(s[1..], id);
      OnlyAppend([s[0]], RemoveFirst(s[1..], id), id);
    }
  }

  lemma {:induction false} OnlyRemoveFirstOther(s: seq<Node>, id: string, other: string)
    requires other != id
    ensures Only(RemoveFirst(s, id), other) == Only(s, other)
  {
    if s != [] && s[0].id != id {
      OnlyRemoveFirstOther(s[1..], id, other);
      assert RemoveFirst(s, id) == [s[0]] + RemoveFirst(s[1..], id);
      OnlyAppend([s[0]], RemoveFirst(s[1..], id), other);
    }
  }

  lemma {:induction false} WithoutRemoveFirst(s: seq<Node>, id: string)
    ensures Without(RemoveFirst(s, id), id) == Without(s, id)
  {
    if s != [] && s[0].id != id {
      WithoutRemoveFirst(s[1..], id);
      assert RemoveFirst(s, id) == [s[0]] + RemoveFirst(s[1..], id);
      WithoutAppend([s[0]], RemoveFirst(s[1..], id), id);
    }
  }

  /** Once nothing carries `id`, removing the first `id` node after appending
      one removes exactly the appended node. */
  lemma {:induction false} RemoveFirstOfAppended(t: seq<Node>, n: Node)
    requires Only(t, n.id) == []
    ensures RemoveFirst(t + [n], n.id) == t
  {
    if t != [] {
      assert t[0].id != n.id;
      assert (t + [n])[1..] == t[1..] + [n];
      RemoveFirstOfAppended(t[1..], n);
    }
  }

  lemma ReservedIdsDistinct(k: Kind, k': Kind)
    ensures k != k' <==> ReservedId(k) != ReservedId(k')
  {
    assert |HtmlId| == 10 && |CssId| == 9 && |JsId| == 8;
  }

  // ---------------------------------------------------------------------
  // Properties of the injection routines.

  /** A load fails exactly when querySelector finds the reserved id under the
      wrong parent: for HTML and JS, anywhere in head; for CSS, in body while
      head has none. */
  lemma LoadFailsIff(d: Doc, k: Kind, code: string)
    ensures Load(d, k, code).Err? <==>
              if GoesToHead(k) then Only(d.head, CssId) == [] && Only(d.body, CssId) != []
              else Only(d.head, ReservedId(k)) != []
  {
    OnlyEmpty(d.head, ReservedId(k));
    OnlyEmpty(d.body, ReservedId(k));
  }

  /** When a load succeeds, the other parent is untouched and its own parent
      loses its first reserved node (if any) and gains the fresh node at the end. */
  lemma LoadShape(d: Doc, k: Kind, code: string)
    requires Load(d, k, code).Ok?
    ensures Load(d, k, code).value ==
              WithParent(d, k, RemoveFirst(Parent(d, k), ReservedId(k)) + [Fresh(k, code)])
  {
    RemoveAtIndexOf(d.head, ReservedId(k));
    RemoveAtIndexOf(d.body, ReservedId(k));
  }

  /** The number of reserved nodes of kind `k` in its parent after a
      successful load: one if there were none, otherwise unchanged (one is
      replaced). So the result has exactly one exactly when the document had
      at most one. */
  lemma LoadCount(d: Doc, k: Kind, code: string)
    requires Load(d, k, code).Ok?
    ensures var n := |Only(Parent(d, k), ReservedId(k))|;
            |Only(Parent(Load(d, k, code).value, k), ReservedId(k))| == if n == 0 then 1 else n
  {
    var s := Parent(d, k);
    LoadShape(d, k, code);
    OnlyAppend(RemoveFirst(s, ReservedId(k)), [Fresh(k, code)], ReservedId(k));
    OnlyRemoveFirst(s, ReservedId(k));
  }

  /** From an injectable document a load succeeds and leaves exactly one node
      with the reserved id, the fresh one, last in its parent, and none in
      the other parent. */
  lemma LoadLeavesOne(d: Doc, k: Kind, code: string)
    requires Injectable(d, k)
    ensures Load(d, k, code).Ok?
    ensures var r := Load(d, k, code).value;
            && Only(Parent(r, k), ReservedId(k)) == [Fresh(k, code)]
            && Only(Other(r, k), ReservedId(k)) == []
            && Parent(r, k)[|Parent(r, k)| - 1] == Fresh(k, code)
  {
    LoadFailsIff(d, k, code);
    if GoesToHead(k) {
      assert Only(d.body, CssId) == [];
    }
    var s := Parent(d, k);
    var t := RemoveFirst(s, ReservedId(k));
    LoadShape(d, k, code);
    var r := Load(d, k, code).value;
    assert Parent(r, k) == t + [Fresh(k, code)] && Other(r, k) == Other(d, k);
    OnlyAppend(t, [Fresh(k, code)], ReservedId(k));
    OnlyRemoveFirst(s, ReservedId(k));
    assert Only(t, ReservedId(k)) == [];
  }

  /** Every node whose id is not the reserved one of `k` survives a load in
      its parent, in the same order, and the other parent does not change. */
  lemma LoadKeepsOthers(d: Doc, k: Kind, code: string)
    requires Load(d, k, code).Ok?
    ensures var r := Load(d, k, code).value;
            && Other(r, k) == Other(d, k)
            && Without(Parent(r, k), ReservedId(k)) == Without(Parent(d, k), ReservedId(k))
  {
    var s := Parent(d, k);
    LoadShape(d, k, code);
    WithoutAppend(RemoveFirst(s, ReservedId(k)), [Fresh(k, code)], ReservedId(k));
    WithoutRemoveFirst(s, ReservedId(k));
  }

  /** Cross-kind independence: the nodes carrying any other id, such as the
      reserved id of another kind, are the same before and after a load. */
  lemma LoadIndependent(d: Doc, k: Kind, code: string, id: string)
    requires Load(d, k, code).Ok?
    requires id != ReservedId(k)
    ensures var r := Load(d, k, code).value;
            Only(r.head, id) == Only(d.head, id) && Only(r.body, id) == Only(d.body, id)
  {
    var s := Parent(d, k);
    LoadShape(d, k, code);
    OnlyAppend(RemoveFirst(s, ReservedId(k)), [Fresh(k, code)], id);
    OnlyRemoveFirstOther(s, ReservedId(k), id);
  }

  /** Loading keeps the document invariant, and the loaded document shows
      the new code for that kind. */
  lemma LoadPreservesWellFormed(d: Doc, k: Kind, code: string)
    requires WellFormed(d)
    ensures Load(d, k, code).Ok? && WellFormed(Load(d, k, code).value)
    ensures Shows(Load(d, k, code).value, k, code)
  {
    assert Injectable(d, k);
    LoadLeavesOne(d, k, code);
    var r := Load(d, k, code).value;
    forall k': Kind
      ensures Injectable(r, k')
    {
      if k' != k {
        assert Injectable(d, k');
        ReservedIdsDistinct(k, k');
        LoadIndependent(d, k, code, ReservedId(k'));
      }
    }
  }

  /** Replace-not-append: a second load of the same kind gives the document a
      single load of the new code would have given. */
  lemma ReplaceNotAppend(d: Doc, k: Kind, a: string, b: string)
    requires Injectable(d, k)
    ensures Load(d, k, a).Ok?
    ensures Load(Load(d, k, a).value, k, b) == Load(d, k, b)
  {
    var id := ReservedId(k);
    var s := Parent(d, k);
    var t := RemoveFirst(s, id);
    LoadLeavesOne(d, k, a);
    LoadLeavesOne(d, k, b);
    var d1 := Load(d, k, a).value;
    LoadShape(d, k, a);
    LoadShape(d, k, b);
    OnlyRemoveFirst(s, id);
    assert Only(t, id) == [];
    assert Parent(d1, k) == t + [Fresh(k, a)];
    assert Other(d1, k) == Other(d, k);
    LoadFailsIff(d1, k, b);
    if GoesToHead(k) {
      assert Only(d1.head, CssId) == [Fresh(k, a)];
    }
    LoadShape(d1, k, b);
    RemoveFirstOfAppended(t, Fresh(k, a));
  }

  /** Idempotence: loading the same code again leaves the document as it is. */
  lemma LoadIdempotent(d: Doc, k: Kind, code: string)
    requires Injectable(d, k)
    ensures Load(d, k, code).Ok?
    ensures Load(Load(d, k, code).value, k, code) == Load(d, k, code)
  {
    ReplaceNotAppend(d, k, code, code);
  }

  /** loadHtml leaves one customHTML div, holding exactly the code. */
  lemma LoadHtmlLeavesOne(d: Doc, code: string)
    requires Only(d.head, HtmlId) == [] && |Only(d.body, HtmlId)| <= 1
    ensures Load(d, Html, code).Ok?
    ensures Only(Load(d, Html, code).value.body, HtmlId) == [Node("div", HtmlId, code)]
    ensures Load(d, Html, code).value.head == d.head
  {
    LoadLeavesOne(d, Html, code);
    LoadKeepsOthers(d, Html, code);
  }

  /** loadCss changes only head, which ends with the one customCSS style node. */
  lemma LoadCssHeadOnly(d: Doc, code: string)
    requires Only(d.body, CssId) == [] && |Only(d.head, CssId)| <= 1
    ensures Load(d, Css, code).Ok?
    ensures var r := Load(d, Css, code).value;
            && r.body == d.body
            && Only(r.head, CssId) == [Node("style", CssId, code)]
            && r.head[|r.head| - 1] == Node("style", CssId, code)
  {
    LoadLeavesOne(d, Css, code);
    LoadKeepsOthers(d, Css, code);
  }

  /** loadJS leaves one customJS script, holding the code inside try/catch. */
  lemma LoadJsGuarded(d: Doc, code: string)
    requires Only(d.head, JsId) == [] && |Only(d.body, JsId)| <= 1
    ensures Load(d, Js, code).Ok?
    ensures Only(Load(d, Js, code).value.body, JsId) ==
              [Node("script", JsId, "try{" + code + "}catch(e){}")]
  {
    LoadLeavesOne(d, Js, code);
  }

  /** A CSS load and an HTML or JS load touch different parents, so on a
      well-formed document their order does not matter. */
  lemma CssLoadCommutes(d: Doc, k: Kind, css: string, code: string)
    requires WellFormed(d) && k != Css
    ensures Load(d, Css, css).Ok? && Load(d, k, code).Ok?
    ensures Load(Load(d, Css, css).value, k, code) == Load(Load(d, k, code).value, Css, css)
  {
    LoadPreservesWellFormed(d, Css, css);
    LoadPreservesWellFormed(d, k, code);
    var dc := Load(d, Css, css).value;
    var dk := Load(d, k, code).value;
    LoadPreservesWellFormed(dc, k, code);
    LoadPreservesWellFormed(dk, Css, css);
    LoadShape(d, Css, css);
    LoadShape(d, k, code);
    LoadShape(dc, k, code);
    LoadShape(dk, Css, css);
  }

  /** The preview iframe's document, whose head and body children the
      injection routines replace in place. */
  class PreviewDocument {
    var head: seq<Node>
    var body: seq<Node>

    function Snapshot(): Doc
      reads this
    {
      Doc(head, body)
    }

    /** A fresh iframe document, with empty head and body. */
    constructor ()
      ensures head == [] && body == []
      ensures WellFormed(Snapshot())
    {
      head, body := [], [];
    }

    /** loadHtml: replace or create the customHTML div at the end of body.
        `ok` is false when removeChild throws; nothing has changed then. */
    method LoadHtml(code: string) returns (ok: bool)
      modifies this
      ensures ok == Load(old(Snapshot()), Html, code).Ok?
      ensures Snapshot() == if ok then Load(old(Snapshot()), Html, code).value else old(Snapshot())
    {
      var found := QuerySelector(Snapshot(), HtmlId);
      if found.Some? {
        if found.value.InHead? {
          return false;
        }
        body := RemoveAt(body, found.value.index);
      }
      var html := Node("div", HtmlId, code);
      body := body + [html];
      return true;
    }

    /** loadCss: replace or create the customCSS style at the end of head. */
    method LoadCss(code: string) returns (ok: bool)
      modifies this
      ensures ok == Load(old(Snapshot()), Css, code).Ok?
      ensures Snapshot() == if ok then Load(old(Snapshot()), Css, code).value else old(Snapshot())
    {
      var found := QuerySelector(Snapshot(), CssId);
      if found.Some? {
        if found.value.InBody? {
          return false;
        }
        head := RemoveAt(head, found.value.index);
      }
      var css := Node("style", CssId, code);
      head := head + [css];
      return true;
    }

    /** loadJS: replace or create the guarded customJS script at the end of body. */
    method LoadJS(code: string) returns (ok: bool)
      modifies this
      ensures ok == Load(old(Snapshot()), Js, code).Ok?
      ensures Snapshot() == if ok then Load(old(Snapshot()), Js, code).value else old(Snapshot())
    {
      var found := QuerySelector(Snapshot(), JsId);
      if found.Some? {
        if found.value.InHead? {
          return false;
        }
        body := RemoveAt(body, found.value.index);
      }
      var script := Node("script", JsId, "try{" + code + "}catch(e){}");
      body := body + [script];
      return true;
    }

    /** Run kind `k`'s load routine, the one its debounced runner wraps
        (`useDebounceFn(loadHtml)` and its two siblings). */
    method Inject(k: Kind, code: string) returns (ok: bool)
      modifies this
      ensures ok == Load(old(Snapshot()), k, code).Ok?
      ensures Snapshot() == if ok then Load(old(Snapshot()), k, code).value else old(Snapshot())
    {
      match k {
        case Html => ok := LoadHtml(code);
        case Css => ok := LoadCss(code);
        case Js => ok := LoadJS(code);
      }
    }
  }
}
