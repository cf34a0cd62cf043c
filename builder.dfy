/**
  The request accumulation of `add_slides` (ai_presentation.py). For every
  kept block one slide is created; its placeholders are located and its image
  resolved; a title insert, a body insert and an image create are appended,
  each only when its target was found; at the end a single batch carrying
  every appended request is sent, and only if there is at least one.

  The remote services are inputs: `pages(n)` is the reply to the `n`-th
  slide creation together with that slide's page as read back, and
  `search(q)` is the image-search reply for query `q`.
 */
module SlideBuilder {
  import opened Optional
  import opened PyStr
  import opened SlideParser
  import opened Placeholders
  import opened ImageSearch
  import opened Runs

  /** An edit of the batched update; the image's size and placement are fixed and not modelled. */
  datatype Request =
    | InsertText(objectId: string, text: string)
    | CreateImage(url: string, pageObjectId: string)

  /** The id of the `n`-th created slide and its page of elements. */
  datatype CreatedSlide = CreatedSlide(slideId: string, page: Page)

  /** Python truthiness of an optional id: present and non-empty. */
  predicate Truthy(id: Option<string>): (b: bool)
    ensures b <==> id.Some? && |id.value| > 0
  {
    id.Some? && id.value != ""
  }

  /** `image_url and image_url.startswith("http")`. */
  predicate ImageAccepted(url: Option<string>): (b: bool)
    ensures b <==> url.Some? && |url.value| >= |UrlScheme| && url.value[..|UrlScheme|] == UrlScheme
  {
    url.Some? && url.value != "" && UrlScheme <= url.value
  }

  /** How many requests a guard contributes: one when it holds. */
  function Ops(b: bool): nat {
    if b then 1 else 0
  }

  /**
    The requests one slide contributes, in the fixed order title insert, body
    insert, image create; each is present exactly when its guard holds.
   */
  function SlideRequests(slide: Slide, slideId: string, titleId: Option<string>, bodyId: Option<string>,
                         image: Option<string>): (r: seq<Request>)
    ensures |r| <= 3
    ensures forall i :: 0 <= i < |r| - 1 ==> r[i].InsertText?
  {
    (if Truthy(titleId) then [InsertText(titleId.value, slide.title)] else [])
    + (if Truthy(bodyId) then [InsertText(bodyId.value, slide.body)] else [])
    + (if ImageAccepted(image) then [CreateImage(image.value, slideId)] else [])
  }

  /**
    A slide contributes one request per guard that holds, in the fixed order
    title insert, body insert, image create: the title insert carries the
    title into the title placeholder, the body insert the body into the body
    placeholder, and the image create, always last, the accepted URL onto the
    slide.
   */
  lemma SlideRequestsOrder(slide: Slide, slideId: string, titleId: Option<string>, bodyId: Option<string>,
                           image: Option<string>)
    ensures var r := SlideRequests(slide, slideId, titleId, bodyId, image);
            && |r| == Ops(Truthy(titleId)) + Ops(Truthy(bodyId)) + Ops(ImageAccepted(image))
            && (Truthy(titleId) ==> r[0] == InsertText(titleId.value, slide.title))
            && (Truthy(bodyId) ==> r[Ops(Truthy(titleId))] == InsertText(bodyId.value, slide.body))
            && (ImageAccepted(image) ==> r[|r| - 1] == CreateImage(image.value, slideId))
            && (forall i :: 0 <= i < |r| - 1 ==> r[i].InsertText?)
  {
  }

  /** The image for a slide: the search for its title's query, through the resolver. */
  function SlideImage(slide: Slide, search: string -> SearchResponse): (url: Option<string>)
    ensures url.Some? ==> UrlScheme <= url.value
  {
    ResolveImage(search(ImageQuery(slide.title)))
  }

  /** The requests of a slide whose creation returned `created`. */
  function SlideOps(slide: Slide, created: CreatedSlide, search: string -> SearchResponse): seq<Request> {
    var es := Elements(created.page);
    SlideRequests(slide, created.slideId, LastOfKind(es, TitleKind), LastOfKind(es, BodyKind), SlideImage(slide, search))
  }

  /** The requests of each slide, where `slides[i]` is the `(from + i)`-th slide created. */
  function PerSlide(slides: seq<Slide>, from: nat, pages: nat -> CreatedSlide, search: string -> SearchResponse)
    : (r: seq<seq<Request>>)
    ensures |r| == |slides|
  {
    MapFrom(slides, from, (slide, n) => SlideOps(slide, pages(n), search))
  }

  /** The requests of slide `i` are computed from the reply to creation `from + i`. */
  lemma PerSlideAt(slides: seq<Slide>, from: nat, pages: nat -> CreatedSlide,
                   search: string -> SearchResponse, i: nat)
    requires i < |slides|
    ensures PerSlide(slides, from, pages, search)[i] == SlideOps(slides[i], pages(from + i), search)
  {
    MapFromAt(slides, from, (slide, n) => SlideOps(slide, pages(n), search), i);
  }

  /** Every request collected for `slides`, in order. */
  function Plan(slides: seq<Slide>, from: nat, pages: nat -> CreatedSlide, search: string -> SearchResponse): seq<Request> {
    Flatten(PerSlide(slides, from, pages, search))
  }

  /**
    The body of the loop of `add_slides` for one kept slide, once the slide
    exists: scan its page for placeholders, resolve its image, and append
    the title insert, the body insert and the image create that apply.
   */
  method AppendSlideRequests(requests: seq<Request>, slide: Slide, reply: CreatedSlide, search: string -> SearchResponse)
    returns (out: seq<Request>)
    ensures out == requests + SlideOps(slide, reply, search)
  {
    var ops: seq<Request> := [];
    // the image the slide's requests are specified with, named before the scan so the solver keeps it apart from the page
    ghost var image := SlideImage(slide, search);
    var titleId, bodyId := ScanPlaceholders(Elements(reply.page));
    if Truthy(titleId) {
      ops := ops + [InsertText(titleId.value, slide.title)];
    }
    if Truthy(bodyId) {
      ops := ops + [InsertText(bodyId.value, slide.body)];
    }
    var imageUrl := ResolveImage(search(ImageQuery(slide.title)));
    assert imageUrl == image;
    if ImageAccepted(imageUrl) {
      ops := ops + [CreateImage(imageUrl.value, reply.slideId)];
    }
    out := requests + ops;
  }

  /**
    One pass of the loop of `add_slides`: a block of fewer than two lines is
    skipped; otherwise the next slide (the `created`-th) is created and its
    requests are appended.
   */
  method VisitBlock(block: string, created: nat, requests: seq<Request>,
                    pages: nat -> CreatedSlide, search: string -> SearchResponse)
    returns (created': nat, requests': seq<Request>)
    ensures ParseBlock(block).None? ==> created' == created && requests' == requests
    ensures ParseBlock(block).Some? ==>
              && created' == created + 1
              && requests' == requests + SlideOps(ParseBlock(block).value, pages(created), search)
  {
    var parsed := ParseBlock(block);
    if parsed.None? {
      return created, requests;
    }
    requests' := AppendSlideRequests(requests, parsed.value, pages(created), search);
    created' := created + 1;
  }

  /**
    The loop of `add_slides` over the blocks. Returns how many slides were
    created and the requests collected.
   */
  method CollectRequests(blocks: seq<string>, pages: nat -> CreatedSlide, search: string -> SearchResponse)
    returns (created: nat, requests: seq<Request>)
    ensures created == |Values(ParsedBlocks(blocks))|
    ensures requests == Plan(Values(ParsedBlocks(blocks)), 0, pages, search)
  {
    requests := [];
    created := 0;
    for i := 0 to |blocks|
      invariant created == |Values(ParsedBlocks(blocks[..i]))|
      invariant requests == Plan(Values(ParsedBlocks(blocks[..i])), 0, pages, search)
    {
      CollectStep(blocks, i, pages, search);
      created, requests := VisitBlock(blocks[i], created, requests, pages, search);
    }
    assert blocks[..|blocks|] == blocks;
  }

  /**
    One more block, in terms of the slides: the slides so far grow by the
    block's slide when it is kept, and the requests so far by that slide's
    requests, for the next slide created.
   */
  lemma CollectStep(blocks: seq<string>, i: nat, pages: nat -> CreatedSlide, search: string -> SearchResponse)
    requires i < |blocks|
    ensures var done := Values(ParsedBlocks(blocks[..i]));
            var next := Values(ParsedBlocks(blocks[..i + 1]));
            var p := ParseBlock(blocks[i]);
            && (p.None? ==> next == done)
            && (p.Some? ==> next == done + [p.value])
            && (p.Some? ==> Plan(next, 0, pages, search)
                            == Plan(done, 0, pages, search) + SlideOps(p.value, pages(|done|), search))
  {
    KeptStep(blocks, i);
    var p := ParseBlock(blocks[i]);
    if p.Some? {
      PlanSnoc(Values(ParsedBlocks(blocks[..i])), p.value, pages, search);
    }
  }

  /**
    `add_slides` from the generated text to the final commit. Returns how many
    slides were created and the batch sent, `None` when no request was
    collected and the update call is skipped.
   */
  method AddSlides(text: string, pages: nat -> CreatedSlide, search: string -> SearchResponse)
    returns (created: nat, batch: Option<seq<Request>>)
    ensures created == |Slides(text)|
    ensures batch.Some? <==> Plan(Slides(text), 0, pages, search) != []
    ensures batch.Some? ==> batch.value == Plan(Slides(text), 0, pages, search)
  {
    var requests;
    created, requests := CollectRequests(Blocks(text), pages, search);
    batch := if requests != [] then Some(requests) else None;
  }

  /**
    The requests of slide `i` are exactly its own, preceded by those of every
    earlier slide and followed by those of every later one.
   */
  lemma PlanAt(slides: seq<Slide>, i: nat, from: nat, pages: nat -> CreatedSlide, search: string -> SearchResponse)
    requires i < |slides|
    ensures var runs := PerSlide(slides, from, pages, search);
            Plan(slides, from, pages, search)
            == Flatten(runs[..i]) + SlideOps(slides[i], pages(from + i), search) + Flatten(runs[i + 1..])
  {
    FlattenAt(PerSlide(slides, from, pages, search), i);
    PerSlideAt(slides, from, pages, search, i);
  }

  /** Collecting the requests of one more slide appends its own requests. */
  lemma PlanSnoc(slides: seq<Slide>, slide: Slide, pages: nat -> CreatedSlide, search: string -> SearchResponse)
    ensures Plan(slides + [slide], 0, pages, search)
            == Plan(slides, 0, pages, search) + SlideOps(slide, pages(|slides|), search)
  {
    MapFromSnoc(slides, slide, 0, (slide, n) => SlideOps(slide, pages(n), search));
  }

  /** At most three requests per slide. */
  lemma PlanBound(slides: seq<Slide>, from: nat, pages: nat -> CreatedSlide, search: string -> SearchResponse)
    ensures |Plan(slides, from, pages, search)| <= 3 * |slides|
  {
    var runs := PerSlide(slides, from, pages, search);
    forall i | 0 <= i < |runs| ensures |runs[i]| <= 3 {
      PerSlideAt(slides, from, pages, search, i);
    }
    FlattenBound(runs, 3);
  }

  /** Nothing is collected, and no update is sent, exactly when no slide contributes a request. */
  lemma PlanEmpty(slides: seq<Slide>, from: nat, pages: nat -> CreatedSlide, search: string -> SearchResponse)
    ensures Plan(slides, from, pages, search) == []
        <==> forall i :: 0 <= i < |slides| ==> SlideOps(slides[i], pages(from + i), search) == []
  {
    var runs := PerSlide(slides, from, pages, search);
    forall i | 0 <= i < |slides| ensures runs[i] == SlideOps(slides[i], pages(from + i), search) {
      PerSlideAt(slides, from, pages, search, i);
    }
    FlattenEmpty(runs);
  }

  /** The guard at the image create is redundant after the resolver: it accepts exactly what the resolver returns. */
  lemma ResolvedImageAccepted(response: SearchResponse)
    ensures ImageAccepted(ResolveImage(response)) <==> ResolveImage(response).Some?
  {
  }

  /** A slide with a title placeholder, no body placeholder and no image gets exactly one title insert. */
  lemma TitleOnly(slide: Slide, slideId: string, titleId: string, bodyId: Option<string>, image: Option<string>)
    requires titleId != "" && !Truthy(bodyId) && !ImageAccepted(image)
    ensures SlideRequests(slide, slideId, Some(titleId), bodyId, image) == [InsertText(titleId, slide.title)]
  {
  }
}
