/**
 * `mount`: put the HTML under test into the live document and hand back
 * the node to audit together with the way to undo the change.
 */
module Mounting {
  import opened Wrappers
  import opened JsValues
  import opened Markup

  /** The live document; only the markup of its body is observed. */
  class Document {
    var bodyHTML: string

    constructor (html: string)
      ensures bodyHTML == html
    {
      bodyHTML := html;
    }
  }

  /** The node handed to the audit engine. */
  datatype Root = GivenElement(element: ObjectRef) | DocumentBody

  /** The `restore` closure `mount` returns. */
  datatype RestoreAction =
    | NoRestore                  // `() => undefined`
    | WriteBack(snapshot: string) // `document.body.innerHTML = originalHTML`

  datatype Mounted = Mounted(root: Root, restore: RestoreAction)

  datatype MountError =
    | NoElements(html: string) // a string without a tag-like span
    | NotHtml                  // neither an element nor a string

  /** The text of the `Error` thrown for each failure. */
  function ErrorMessage(e: MountError): string
  {
    match e
    case NoElements(html) => "html parameter (\"" + html + "\") has no elements"
    case NotHtml => "html parameter should be an HTML string or an HTML element"
  }

  /** The argument `mount` goes on with once a detached element was replaced by its `outerHTML`. */
  function MarkupArgument(html: JsValue): JsValue
  {
    if IsHTMLElement(html) then Str(html.obj.outerHTML) else html
  }

  /** What `mount` returns (or throws) and the body markup afterwards. */
  function MountTransition(body: string, html: JsValue): (Result<Mounted, MountError>, string)
  {
    if IsHTMLElement(html) && html.obj.attached then
      (Success(Mounted(GivenElement(html.obj), NoRestore)), body)
    else
      var h := MarkupArgument(html);
      if IsHTMLString(h) then (Success(Mounted(DocumentBody, WriteBack(body))), h.s)
      else if h.Str? then (Failure(NoElements(h.s)), body)
      else (Failure(NotHtml), body)
  }

  /** The body markup after running a restore action. */
  function AfterRestore(body: string, action: RestoreAction): string
  {
    match action
    case NoRestore => body
    case WriteBack(snapshot) => snapshot
  }

  method Mount(doc: Document, html: JsValue) returns (r: Result<Mounted, MountError>)
    modifies doc
    ensures (r, doc.bodyHTML) == MountTransition(old(doc.bodyHTML), html)
  {
    var arg := html;
    if IsHTMLElement(arg) {
      if arg.obj.attached {
        return Success(Mounted(GivenElement(arg.obj), NoRestore));
      }
      arg := Str(arg.obj.outerHTML);
    }
    if IsHTMLString(arg) {
      var originalHTML := doc.bodyHTML;
      doc.bodyHTML := arg.s;
      return Success(Mounted(DocumentBody, WriteBack(originalHTML)));
    }
    if arg.Str? {
      return Failure(NoElements(arg.s));
    }
    return Failure(NotHtml);
  }

  method Restore(doc: Document, action: RestoreAction)
    modifies doc
    ensures doc.bodyHTML == AfterRestore(old(doc.bodyHTML), action)
  {
    match action
    case NoRestore =>
    case WriteBack(snapshot) =>
      doc.bodyHTML := snapshot;
  }

  /** An element already in the body is audited in place: nothing changes and restore does nothing. */
  lemma MountAttached(body: string, el: ObjectRef)
    requires el.tagName.Some? && el.attached
    ensures MountTransition(body, Object(el)) == (Success(Mounted(GivenElement(el), NoRestore)), body)
    ensures AfterRestore(body, NoRestore) == body
  {
  }

  /** A detached element is mounted exactly as its `outerHTML` string would be. */
  lemma MountDetached(body: string, el: ObjectRef)
    requires el.tagName.Some? && !el.attached
    ensures MountTransition(body, Object(el)) == MountTransition(body, Str(el.outerHTML))
  {
  }

  /** Markup with a tag replaces the body and is audited from the body. */
  lemma MountMarkup(body: string, s: string)
    requires ContainsTag(s)
    ensures MountTransition(body, Str(s)) == (Success(Mounted(DocumentBody, WriteBack(body))), s)
  {
  }

  /** Whatever was mounted, running the returned restore gives back the body as it was before. */
  lemma MountThenRestore(body: string, html: JsValue)
    requires MountTransition(body, html).0.Success?
    ensures AfterRestore(MountTransition(body, html).1, MountTransition(body, html).0.value.restore) == body
  {
  }

  /** A failed mount leaves the body untouched. */
  lemma MountFailureKeepsBody(body: string, html: JsValue)
    requires MountTransition(body, html).0.Failure?
    ensures MountTransition(body, html).1 == body
  {
  }

  /** A string without a tag throws "has no elements", quoting the string. */
  lemma MountNoElements(body: string, s: string)
    requires !ContainsTag(s)
    ensures MountTransition(body, Str(s)).0 == Failure(NoElements(s))
    ensures ErrorMessage(NoElements(s)) == "html parameter (\"" + s + "\") has no elements"
  {
  }

  /** Anything that is neither an element nor a string throws the generic error, and nothing else does. */
  lemma MountNotHtml(body: string, html: JsValue)
    ensures MountTransition(body, html).0 == Failure(NotHtml) <==> !IsHTMLElement(html) && !html.Str?
  {
    if IsHTMLElement(html) && !html.obj.attached {
      assert MarkupArgument(html).Str?;
    }
  }
}
