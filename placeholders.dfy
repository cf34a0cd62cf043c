/**
  Locating the title and body placeholders of a freshly created slide
  (`add_slides`, ai_presentation.py): the page's elements are scanned in order
  and the object id of every `TITLE` (resp. `BODY`) placeholder overwrites the
  one recorded so far, so the last one wins and none may be found.
 */
module Placeholders {
  import opened Optional

  /** `placeholder`: its `type` key may be absent. */
  datatype Placeholder = Placeholder(kind: Option<string>)
  /** `shape`: its `placeholder` key may be absent. */
  datatype Shape = Shape(placeholder: Option<Placeholder>)
  /** One entry of `pageElements`: its `shape` key may be absent. */
  datatype PageElement = PageElement(objectId: string, shape: Option<Shape>)
  /** The page read back from the service: its `pageElements` key may be absent. */
  datatype Page = Page(pageElements: Option<seq<PageElement>>)

  const TitleKind: string := "TITLE"
  const BodyKind: string := "BODY"

  /** `element.get("shape", {}).get("placeholder", {}).get("type")`. */
  function PlaceholderType(e: PageElement): (r: Option<string>)
    ensures r.Some? <==> e.shape.Some? && e.shape.value.placeholder.Some? && e.shape.value.placeholder.value.kind.Some?
    ensures r.Some? ==> r == e.shape.value.placeholder.value.kind
  {
    match e.shape
    case None => None
    case Some(shape) =>
      match shape.placeholder
      case None => None
      case Some(p) => p.kind
  }

  /** `page.get("pageElements", [])`. */
  function Elements(page: Page): (r: seq<PageElement>)
    ensures page.pageElements.None? ==> r == []
    ensures page.pageElements.Some? ==> r == page.pageElements.value
  {
    match page.pageElements
    case None => []
    case Some(es) => es
  }

  /** `es[i]` is a placeholder of the given kind. */
  predicate IsKind(es: seq<PageElement>, i: int, kind: string)
    requires 0 <= i < |es|
  {
    PlaceholderType(es[i]) == Some(kind)
  }

  /**
    The object id of the last placeholder of `kind` in `es`, or `None` when
    there is none.
   */
  function LastOfKind(es: seq<PageElement>, kind: string): Option<string>
    decreases |es|
  {
    if es == [] then None
    else
      var n := |es| - 1;
      if PlaceholderType(es[n]) == Some(kind) then Some(es[n].objectId)
      else LastOfKind(es[..n], kind)
  }

  /**
    `LastOfKind` is `None` exactly when no element is a placeholder of that
    kind, and otherwise the id of such an element after which none follows.
   */
  lemma {:induction false} LastOfKindSpec(es: seq<PageElement>, kind: string)
    ensures LastOfKind(es, kind).None? <==> forall i :: 0 <= i < |es| ==> !IsKind(es, i, kind)
    ensures LastOfKind(es, kind).Some? ==>
              exists i :: && 0 <= i < |es| && IsKind(es, i, kind) && es[i].objectId == LastOfKind(es, kind).value
                          && forall j :: i < j < |es| ==> !IsKind(es, j, kind)
    decreases |es|
  {
    if es != [] {
      var n := |es| - 1;
      LastOfKindSpec(es[..n], kind);
      assert forall i :: 0 <= i < n ==> (IsKind(es[..n], i, kind) <==> IsKind(es, i, kind));
      if IsKind(es, n, kind) {
      } else if LastOfKind(es[..n], kind).Some? {
        var i :| && 0 <= i < n && IsKind(es[..n], i, kind) && es[..n][i].objectId == LastOfKind(es, kind).value
                 && forall j :: i < j < n ==> !IsKind(es[..n], j, kind);
        assert IsKind(es, i, kind);
      }
    }
  }

  /** Elements after the last placeholder of a kind decide nothing: the later run wins if it has one. */
  lemma {:induction false} LastOfKindAppend(a: seq<PageElement>, b: seq<PageElement>, kind: string)
    ensures LastOfKind(a + b, kind) == if LastOfKind(b, kind).Some? then LastOfKind(b, kind) else LastOfKind(a, kind)
    decreases |b|
  {
    if b == [] {
      assert a + b == a;
    } else {
      var n := |b| - 1;
      var ab := a + b;
      assert ab[..|ab| - 1] == a + b[..n];
      assert ab[|ab| - 1] == b[n];
      LastOfKindAppend(a, b[..n], kind);
    }
  }

  /**
    The scan of ai_presentation.py: one pass over the elements, overwriting
    the title id on every `TITLE` placeholder and the body id on every `BODY`
    placeholder. Elements without a shape, without a placeholder or of any
    other kind change nothing.
   */
  method ScanPlaceholders(es: seq<PageElement>) returns (titleId: Option<string>, bodyId: Option<string>)
    ensures titleId == LastOfKind(es, TitleKind)
    ensures bodyId == LastOfKind(es, BodyKind)
  {
    titleId := None;
    bodyId := None;
    for i := 0 to |es|
      invariant titleId == LastOfKind(es[..i], TitleKind)
      invariant bodyId == LastOfKind(es[..i], BodyKind)
    {
      assert es[..i + 1][..i] == es[..i];
      var kind := PlaceholderType(es[i]);
      if kind == Some(TitleKind) {
        titleId := Some(es[i].objectId);
      } else if kind == Some(BodyKind) {
        bodyId := Some(es[i].objectId);
      }
    }
    assert es[..|es|] == es;
  }
}
