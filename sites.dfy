/** core/src/sites/mod.rs: what every site handler works with. */
module Sites {
  import opened Wrappers
  import opened Seqs

  /** A search result, a chapter, or (url only) a page image. */
  datatype Link = Link(text: string, url: string, image: Option<string>)

  /**
   * One element a CSS selector found: its attributes and its first text node
   * (`elem.text().next()`). Selecting inside an element is given by the caller
   * as the elements found there.
   */
  datatype Elem = Elem(attrs: map<string, string>, firstText: Option<string>)

  function Attr(e: Elem, name: string): Option<string> {
    if name in e.attrs then Some(e.attrs[name]) else None
  }

  /** `elem.and_then(|e| e.attr(name))` for an element that may be missing. */
  function AttrOf(e: Option<Elem>, name: string): Option<string> {
    match e
    case Some(x) => Attr(x, name)
    case None => None
  }

  /** `select(..).filter_map(|e| e.attr(name))`: the attribute of each element that has it. */
  function AttrValues(elems: seq<Elem>, name: string): seq<string> {
    FilterMap((e: Elem) => Attr(e, name), elems)
  }

  /** The values are exactly those the elements carry, and when all carry one, one per element in order. */
  lemma AttrValuesSpec(elems: seq<Elem>, name: string)
    ensures forall v :: v in AttrValues(elems, name) <==>
      exists i :: 0 <= i < |elems| && Attr(elems[i], name) == Some(v)
    ensures (forall i :: 0 <= i < |elems| ==> name in elems[i].attrs) ==>
      |AttrValues(elems, name)| == |elems| &&
      forall i :: 0 <= i < |elems| ==> AttrValues(elems, name)[i] == elems[i].attrs[name]
  {
    var f := (e: Elem) => Attr(e, name);
    forall v
      ensures v in AttrValues(elems, name) <==> exists i :: 0 <= i < |elems| && Attr(elems[i], name) == Some(v)
    {
      FilterMapMember(f, elems, v);
    }
    if forall i :: 0 <= i < |elems| ==> name in elems[i].attrs {
      FilterMapAll(f, elems);
    }
  }

  /**
   * The `html` member of a JSON reply: the reply is not JSON (with serde's
   * message), has no string `html` (with the reply as JSON text), or holds a
   * fragment whose parsed content is given.
   */
  datatype JsonHtml<T> = InvalidJson(reason: string) | NoHtmlString(json: string) | HtmlFragment(content: T)

  /** MangaSite::request_headers when a site does not override it: none. */
  const DefaultRequestHeaders: map<string, string> := map[]
}
