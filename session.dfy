/** One editor item (the CodeEditItem component): its panel flags, its three
    code buffers and title, its pending debounced loads, the preview document
    it injects into and the store it persists to. */
module Session {
  import opened Wrappers
  import opened Dom
  import opened Debounce
  import Store

  /** Which editor panels are shown: the `codeModule` state. */
  datatype Modules = Modules(html: bool, css: bool, js: bool)

  function Shown(m: Modules, k: Kind): bool {
    match k
    case Html => m.html
    case Css => m.css
    case Js => m.js
  }

  /** The initial `codeModule`: only the html panel is shown. */
  const InitialModules: Modules := Modules(true, false, false)

  /** The flag update of addCodeModule, `{...pre, [k]: true}`. */
  function AddCodeModule(m: Modules, k: Kind): (r: Modules)
    ensures Shown(r, k)
    ensures forall k' :: k' != k ==> Shown(r, k') == Shown(m, k')
  {
    match k
    case Html => m.(html := true)
    case Css => m.(css := true)
    case Js => m.(js := true)
  }

  /** deleteCodeModule, `{...pre, [k]: false}`. */
  function DeleteCodeModule(m: Modules, k: Kind): (r: Modules)
    ensures !Shown(r, k)
    ensures forall k' :: k' != k ==> Shown(r, k') == Shown(m, k')
  {
    match k
    case Html => m.(html := false)
    case Css => m.(css := false)
    case Js => m.(js := false)
  }

  /** Adding a panel twice is adding it once, deleting after adding is
      deleting, and flag updates of different kinds commute. */
  lemma FlagLaws(m: Modules, k: Kind, k': Kind)
    ensures AddCodeModule(AddCodeModule(m, k), k) == AddCodeModule(m, k)
    ensures DeleteCodeModule(AddCodeModule(m, k), k) == DeleteCodeModule(m, k)
    ensures AddCodeModule(DeleteCodeModule(m, k), k) == AddCodeModule(m, k)
    ensures k != k' ==> AddCodeModule(DeleteCodeModule(m, k'), k) == DeleteCodeModule(AddCodeModule(m, k), k')
    ensures k != k' ==> AddCodeModule(AddCodeModule(m, k), k') == AddCodeModule(AddCodeModule(m, k'), k)
    ensures k != k' ==> DeleteCodeModule(DeleteCodeModule(m, k), k') == DeleteCodeModule(DeleteCodeModule(m, k'), k)
  {
  }

  /** The built-in HTML skeleton `defaultHtmlCode`. */
  const DefaultHtmlCode: string :=
    "<!DOCTYPE html>\n<html lang=\"en\">\n<head>\n    <meta charset=\"UTF-8\">\n"
    + "    <meta http-equiv=\"X-UA-Compatible\" content=\"IE=edge\">\n"
    + "    <meta name=\"viewport\" content=\"width=device-width, initial-scale=1.0\">\n"
    + "    <title>Document</title>\n</head>\n<body>\n    \n</body>\n</html>"

  /** `htmlCodeProp || defaultHtmlCode`: a missing prop and the empty string
      are both falsy and give the skeleton; the html buffer never starts empty. */
  function InitialHtmlCode(prop: Option<string>): (r: string)
    ensures r != ""
    ensures (prop == None || prop == Some("")) ==> r == DefaultHtmlCode
    ensures !(prop == None || prop == Some("")) ==> Some(r) == prop
  {
    if prop.Some? && prop.value != "" then prop.value else DefaultHtmlCode
  }

  /** A field of the item data the list passes in, absent as `undefined`. */
  function Prop(itemData: map<Store.Field, string>, f: Store.Field): Option<string> {
    if f in itemData then Some(itemData[f]) else None
  }

  /** The text JS makes of a buffer when assigning it to innerHTML or
      splicing it into a template literal: `undefined` becomes "undefined". */
  function Text(v: Option<string>): string {
    v.GetOr("undefined")
  }

  /** The `type` argument onCodeChange receives from kind `k`'s editor. */
  function FieldOf(k: Kind): Store.Field {
    match k
    case Html => Store.HtmlField
    case Css => Store.CssField
    case Js => Store.JsField
  }

  class EditItem {
    const id: Store.Id
    var modules: Modules
    var htmlCode: string
    var cssCode: Option<string>
    var jsCode: Option<string>
    var title: string
    var pending: Slots
    const preview: PreviewDocument
    const store: Store.CodeStore

    /** The preview holds at most one node per reserved id, and every
        pending load carries its kind's current buffer, so a firing timer
        never injects a stale value. */
    ghost predicate Valid()
      reads this, preview
    {
      && WellFormed(preview.Snapshot())
      && (Html in pending ==> pending[Html] == CodeOf(Html))
      && (Css in pending ==> pending[Css] == CodeOf(Css))
      && (Js in pending ==> pending[Js] == CodeOf(Js))
    }

    /** Kind `k`'s buffer, `undefined` (None) for a css or js prop never set. */
    function Buffer(k: Kind): Option<string>
      reads this
    {
      match k
      case Html => Some(htmlCode)
      case Css => cssCode
      case Js => jsCode
    }

    /** `codeMap[k]`, as the loaders receive it. */
    function CodeOf(k: Kind): string
      reads this
    {
      Text(Buffer(k))
    }

    /** The initial `useState` values, from the item data (empty for a new
        item). The iframe document must already exist. */
    constructor (id: Store.Id, itemData: map<Store.Field, string>, preview: PreviewDocument, store: Store.CodeStore)
      requires WellFormed(preview.Snapshot())
      ensures Valid()
      ensures this.id == id && this.preview == preview && this.store == store
      ensures modules == InitialModules
      ensures htmlCode == InitialHtmlCode(Prop(itemData, Store.HtmlField))
      ensures cssCode == Prop(itemData, Store.CssField)
      ensures jsCode == Prop(itemData, Store.JsField)
      ensures title == Prop(itemData, Store.TitleField).GetOr("")
      ensures pending == map[]
    {
      this.id := id;
      this.preview := preview;
      this.store := store;
      modules := InitialModules;
      htmlCode := InitialHtmlCode(Prop(itemData, Store.HtmlField));
      cssCode := Prop(itemData, Store.CssField);
      jsCode := Prop(itemData, Store.JsField);
      title := Prop(itemData, Store.TitleField).GetOr("");
      pending := map[];
    }

    /** The onChange of kind `k`'s editor: set the buffer, request a
        debounced load of the new code, persist it. The preview is not
        touched until that kind's timer fires. */
    method OnEditorChange(k: Kind, code: string)
      requires Valid()
      modifies this, store
      ensures Valid()
      ensures Buffer(k) == Some(code)
      ensures forall k' :: k' != k ==> Buffer(k') == old(Buffer(k'))
      ensures modules == old(modules) && title == old(title)
      ensures pending == Run(old(pending), k, code)
      ensures store.entries == Store.UpdateOrAppend(old(store.entries), id, FieldOf(k), code)
      ensures unchanged(preview)
    {
      match k {
        case Html => htmlCode := code;
        case Css => cssCode := Some(code);
        case Js => jsCode := Some(code);
      }
      pending := Run(pending, k, code);
      store.OnCodeChange(id, FieldOf(k), code);
    }

    /** The input handler of the editable title: it is persisted only. */
    method OnTitleInput(markup: string)
      requires Valid()
      modifies this, store
      ensures Valid()
      ensures title == markup
      ensures forall k :: Buffer(k) == old(Buffer(k))
      ensures modules == old(modules) && pending == old(pending)
      ensures store.entries == Store.UpdateOrAppend(old(store.entries), id, Store.TitleField, markup)
      ensures unchanged(preview)
    {
      store.OnCodeChange(id, Store.TitleField, markup);
      title := markup;
    }

    /** addCodeModule: show panel `k` and request a debounced load of its
        current buffer. */
    method AddModule(k: Kind)
      requires Valid()
      modifies this
      ensures Valid()
      ensures modules == AddCodeModule(old(modules), k)
      ensures pending == Run(old(pending), k, old(CodeOf(k)))
      ensures forall k' :: Buffer(k') == old(Buffer(k'))
      ensures title == old(title)
      ensures unchanged(preview) && unchanged(store)
    {
      modules := AddCodeModule(modules, k);
      pending := Run(pending, k, CodeOf(k));
    }

    /** deleteCodeModule: hide panel `k`. What was injected stays in the
        preview, and a pending load of that kind still fires. */
    method DeleteModule(k: Kind)
      requires Valid()
      modifies this
      ensures Valid()
      ensures modules == DeleteCodeModule(old(modules), k)
      ensures pending == old(pending)
      ensures forall k' :: Buffer(k') == old(Buffer(k'))
      ensures title == old(title)
      ensures unchanged(preview) && unchanged(store)
    {
      modules := DeleteCodeModule(modules, k);
    }

    /** Kind `k`'s debounce timer fires: the code of the latest request is
        loaded into the preview, which stays well formed, and the kind's only
        reserved node then shows its current buffer. */
    method TimerFires(k: Kind)
      requires Valid()
      modifies this, preview
      ensures Valid()
      ensures pending == Fire(old(pending), k)
      ensures k in old(pending) ==> Load(old(preview.Snapshot()), k, old(pending)[k]).Ok?
      ensures k in old(pending) ==>
                preview.Snapshot() == Load(old(preview.Snapshot()), k, old(pending)[k]).value
      ensures k !in old(pending) ==> preview.Snapshot() == old(preview.Snapshot())
      ensures k in old(pending) ==> Shows(preview.Snapshot(), k, CodeOf(k))
      ensures modules == old(modules) && title == old(title)
      ensures forall k' :: Buffer(k') == old(Buffer(k'))
    {
      if k in pending {
        var code := pending[k];
        ghost var before := preview.Snapshot();
        LoadPreservesWellFormed(before, k, code);
        ghost var after := Load(before, k, code).value;
        assert Shows(after, k, CodeOf(k));
        var ok := preview.Inject(k, code);
        assert ok && preview.Snapshot() == after;
        pending := Fire(pending, k);
      }
    }
  }

  /** A hidden panel's content stays live: type "X" into the html editor,
      let the timer fire, hide the panel; the preview still shows "X". */
  method HideKeepsContent(saved: seq<Store.Entry>)
  {
    var doc := new PreviewDocument();
    var store := new Store.CodeStore(saved);
    var item := new EditItem(1, map[], doc, store);
    item.OnEditorChange(Html, "X");
    item.TimerFires(Html);
    LoadLeavesOne(Doc([], []), Html, "X");
    item.DeleteModule(Html);
    assert !Shown(item.modules, Html);
    assert Only(doc.body, HtmlId) == [Node("div", HtmlId, "X")];
  }
}
