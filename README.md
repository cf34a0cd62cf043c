# AI presentation builder — slide assembly

`ai_presentation.py` asks a language model for the text of a presentation.
It then turns that text into Google Slides:

- `add_slides` cuts the text into slides.
- For each slide it creates a page, finds the page's title and body placeholders, and looks up an image for the slide's title (`fetch_image_url`).
- It collects a title insert, a body insert and an image create for each slide, each only when its target was found.
- It sends all collected requests in one batched update, and only when there is at least one.

This project models that assembly and proves its properties:

- the text parsing;
- the placeholder scan;
- the image-query derivation and the image-search decision;
- the request accumulation and the final send gate.

The remote services become inputs of the model:

- `pages(n)` is the reply to the `n`-th slide creation, together with the page read back for that slide.
- `search(q)` is the image-search reply for the query `q`.

The modules are:

- `Optional`: the `Option` type, and `Values`, which keeps the present entries of a sequence in order.
- `Runs`: concatenating runs, and mapping over a sequence.
- `PyStr`: the Python `str` operations the program calls. `strip()` (`Strip`) removes Python's `isspace` code points. `split(sep)` (`Split`) cuts at leftmost, non-overlapping occurrences. `sep.join` is `Join`, and `startswith` is the sequence prefix test `<=`. `Find` and `Count` are helpers for stating properties, as the program calls neither. `Find` reports absence as `None`, where Python's `str.find` returns -1. `Count` counts non-overlapping occurrences, as `str.count` does. `split(": ", 1)[-1]` is modelled by `ImageSearch.ImageQuery`, through `Find`.
- `SlideParser`: text → blocks → slides (`ai_presentation.py:106-115`).
- `Placeholders`: the scan for the `TITLE` and `BODY` placeholders (`ai_presentation.py:131-142`).
- `ImageSearch`: the query (`ai_presentation.py:164`) and the decision of `fetch_image_url` (`ai_presentation.py:81-93`).
- `SlideBuilder`: the loop of `add_slides` and the final batch (`ai_presentation.py:102-197`).

## Model

| member | source | states |
|---|---|---|
| PyStr.Strip | ai_presentation.py:106 | `strip()` never lengthens a string. Its result is empty or starts and ends with a non-whitespace character. |
| PyStr.Split | ai_presentation.py:110 | `split(sep)` always yields at least one piece, even for the empty string. |
| PyStr.Join | ai_presentation.py:115 | `sep.join(pieces)` begins with the first piece. `PyStr.JoinSplit` is its round trip with `split`. |
| PyStr.StripIsStripped | ai_presentation.py:106 | `strip()` removes exactly the leading and trailing whitespace, and the result is an infix of the input. |
| PyStr.StripUnique | ai_presentation.py:114 | Any infix whose outside is all whitespace and whose ends are not whitespace is what `strip()` returns. |
| PyStr.StripIdempotent | ai_presentation.py:114 | Stripping a stripped string changes nothing. |
| PyStr.FindLeftmost | ai_presentation.py:164 | `Find` returns the leftmost occurrence of the separator, which fixes where `split(": ", 1)` cuts. It returns `None` exactly when the separator does not occur. |
| PyStr.JoinSplit | ai_presentation.py:106 | Joining the pieces of `split(sep)` with `sep` gives back the string. |
| PyStr.SplitPiecesFree | ai_presentation.py:106 | No piece of `split(sep)` contains `sep`. |
| PyStr.SplitCount | ai_presentation.py:106 | `split(sep)` yields `count(sep) + 1` pieces. |
| PyStr.SplitSingle | ai_presentation.py:110-111 | `split(sep)` yields a single piece exactly when `sep` does not occur. |
| PyStr.SplitFirst | ai_presentation.py:110 | The first piece of a split ends at the first occurrence of the separator, and the rest is the split of what follows. |
| SlideParser.Blocks | ai_presentation.py:106 | The stripped text, cut at every "\n\n", gives at least one block, even when the text is empty. |
| SlideParser.Lines | ai_presentation.py:110 | A block cut at every "\n" gives at least one line. |
| SlideParser.ParseBlock | ai_presentation.py:110-115 | A block of fewer than two lines gives no slide. Otherwise the title is the stripped first line and the body the remaining lines joined with "\n". The ensures states that the title is already stripped. `ParseBlockKept` and `ParseBlockAt` characterise the result. |
| SlideParser.Slides | ai_presentation.py:106-112 | The slides visited by the loop: the slides of the kept blocks, in order. There are at most as many slides as blocks. |
| SlideParser.BlocksPartitionText | ai_presentation.py:106 | The blocks, joined with "\n\n", give back the stripped text. No block contains "\n\n". There is one more block than there are separators. |
| SlideParser.ThreeNewlines | ai_presentation.py:106 | Three newlines split as one separator followed by a piece that starts with "\n": the split is leftmost and non-overlapping. |
| SlideParser.ParseBlockKept | ai_presentation.py:110-112 | A block becomes a slide exactly when it contains a line break. A block with a single line is skipped. |
| SlideParser.ParseBlockAt | ai_presentation.py:110-115 | For a block whose first line break is at `k`, the title is the stripped text before `k` and the body is everything after it. First line, "\n" and body reconstruct the block. |
| SlideParser.LinesAt | ai_presentation.py:110 | The lines of a block are its first line followed by the lines after the first line break. |
| SlideParser.KeptStep | ai_presentation.py:109-112 | Each block, in order, adds its slide when kept and nothing otherwise. |
| SlideParser.SlidesInOrder | ai_presentation.py:109-112 | The slides of the earlier blocks come before those of the later blocks. |
| SlideParser.ParsedSlideShape | ai_presentation.py:110-115 | The title of a parsed slide has no line break. The body has no "\n\n" when its block had none. |
| SlideParser.SlidesShape | ai_presentation.py:106-115 | No slide parsed from any text has a line break in its title or "\n\n" in its body. |
| SlideParser.FirstNewline | ai_presentation.py:110 | For a block containing a line break, returns the index of the first one. |
| Placeholders.PlaceholderType | ai_presentation.py:137 | The chained `get` gives a type exactly when the shape, its placeholder and the placeholder's type are all present, and then it gives that type. |
| Placeholders.Elements | ai_presentation.py:134 | A page without `pageElements` gives no elements. Otherwise it gives the page's elements. |
| Placeholders.LastOfKindSpec | ai_presentation.py:134-142 | The recorded id is `None` exactly when no element is a placeholder of that kind. Otherwise it is the id of such an element with none after it. |
| Placeholders.LastOfKindAppend | ai_presentation.py:134-142 | Later elements override earlier ones only when they hold a placeholder of that kind. |
| Placeholders.ScanPlaceholders | ai_presentation.py:131-142 | The loop leaves the id of the last `TITLE` placeholder and the id of the last `BODY` placeholder, or `None` for each. |
| ImageSearch.ImageQuery | ai_presentation.py:164 | The query is a suffix of the title. It is the whole title when the title has no ": ". |
| ImageSearch.ImageQueryDropsPrefix | ai_presentation.py:164 | For a title "prefix: rest" whose prefix has no ": ", the query is exactly `rest`. |
| ImageSearch.ResolveImage | ai_presentation.py:81-93 | A URL is returned exactly when the status is 200, `items` is present and non-empty, and its first link starts with "http". The URL is that link. |
| SlideBuilder.Truthy | ai_presentation.py:147 | A placeholder id passes `if title_id:` / `if body_id:` exactly when it is present and non-empty. |
| SlideBuilder.ImageAccepted | ai_presentation.py:165 | `image_url and image_url.startswith("http")` holds exactly when a URL is present and begins with "http". |
| SlideBuilder.SlideImage | ai_presentation.py:164-165 | The image looked up for a slide's title query. When present, it begins with "http". |
| SlideBuilder.SlideRequests | ai_presentation.py:147-185 | A slide contributes at most three requests, and every request but the last is a text insert, so an image create can only come last. `SlideRequestsOrder` gives the exact count, positions and contents. |
| SlideBuilder.ResolvedImageAccepted | ai_presentation.py:165 | The caller's guard `image_url and image_url.startswith("http")` accepts exactly the URLs the resolver returns. |
| SlideBuilder.SlideRequestsOrder | ai_presentation.py:147-185 | A slide contributes one request per guard that holds, in the order title insert, body insert, image create. Each request carries its own target and content. |
| SlideBuilder.TitleOnly | ai_presentation.py:147-161 | With only a title placeholder and no image, a slide gets exactly one title insert. |
| SlideBuilder.AppendSlideRequests | ai_presentation.py:131-185 | One slide's loop body appends exactly that slide's requests to the list. |
| SlideBuilder.VisitBlock | ai_presentation.py:109-185 | A skipped block changes nothing. A kept block creates the next slide and appends its requests. |
| SlideBuilder.CollectStep | ai_presentation.py:109-185 | One more block extends the slides by its slide when kept. The requests then grow by that slide's requests, taken for the next created slide. |
| SlideBuilder.CollectRequests | ai_presentation.py:104-185 | The loop creates one slide per kept block. It collects the requests of every kept slide, slide after slide. |
| SlideBuilder.AddSlides | ai_presentation.py:102-197 | The program creates as many slides as the text has kept blocks. It sends one batch exactly when requests were collected, and that batch carries exactly those requests. |
| SlideBuilder.PerSlideAt | ai_presentation.py:109-185 | The `i`-th kept slide's requests are computed from the `i`-th creation reply. |
| SlideBuilder.PlanAt | ai_presentation.py:109-185 | In the collected requests, each slide's own requests sit after those of every earlier slide and before those of every later one. |
| SlideBuilder.PlanSnoc | ai_presentation.py:109-185 | Collecting one more slide appends its requests and nothing else. |
| SlideBuilder.PlanBound | ai_presentation.py:147-185 | At most three requests are collected per slide. |
| SlideBuilder.PlanEmpty | ai_presentation.py:193-197 | The update is skipped exactly when no slide contributes a request. |

## Left out

- The language-model call that produces the text (`generate_slide_content`, `ai_presentation.py:29-62`). The text is an input of `AddSlides`.
- Loading credentials and environment variables (`ai_presentation.py:10-27`), and the imports.
- The HTTP request and JSON decoding of the image search (`ai_presentation.py:66-79`, `82`). The decoded reply is the input `SearchResponse`.
- The Slides API calls (`ai_presentation.py:118-129`), `create_presentation` (`ai_presentation.py:95-100`) and `share_presentation` (`ai_presentation.py:199-204`). Slide creation and the page read become the input `pages`.
- SlideBuilder.AddSlides: treats each service as a pure function of the slide's position or of the query. A failing call, an exception or a retry is not modelled, and neither is the order of the remote calls relative to each other.
- SlideBuilder.AddSlides: models the final batched update only as the value it would send (`batch`), not as a call.
- The image's fixed size and transform (`ai_presentation.py:172-182`), including the floating-point scale 0.7. `CreateImage` carries the URL and the page only.
- Console output (`print`) and the `__main__` entry point (`ai_presentation.py:206-211`).
- Placeholders.ScanPlaceholders: assumes every page element has an `objectId`, and `ResolveImage` assumes a present link. The source raises `KeyError` when either key is missing. The model types both as always present.
- ImageSearch.ResolveImage: assumes `items` is a list. A JSON `items` of another type is not modelled.
- The unused `enumerate` index of the loop over blocks (`ai_presentation.py:109`).
- PyStr.Split: defined only for a non-empty separator. Python raises `ValueError` for an empty one, but the program only ever uses the constants "\n\n", "\n" and ": ".
