# Iterators, renderers and slide navigation — a Dafny model

This project models three small pieces of sequential logic from a
repository of talk material: a Rust talk on iterators and traits, and the
script that drives its HTML slide deck.

- **`NaiveChain`** (`src/lib.rs`), a hand-written iterator adapter. It is a
  two-state machine (`Front`, `Back`) that yields every item of iterator `a`
  and then every item of iterator `b`. The inner iterators are modelled as
  slice iterators: each is a finite sequence with a cursor. Each one is an
  object that `next` advances in place, as `xs.iter()` is in the benchmark
  that uses the adapter. The module `Chain` has a class `SeqIter` for the
  inner iterators and a class `NaiveChain` with the `state` field.
  `NaiveChain.Next` follows the `match` of the Rust `next`. `Drain` shows
  that the chain, run until its first `None`, yields exactly `a + b`, which
  is what `Iterator::chain` yields.
- **`Bees::render` and `Cactii::render`** (`examples/traits.rs`) are pure
  string builders that collect `n` copies of a unit string. The module
  `Render` defines one recursive `Repeat`, proves lemmas about it, and
  characterises each render by its length and by every character. Characters
  are Unicode scalar values, so each emoji is one `char`.
- **Slide navigation** (`scripts.js`) handles a key press. `Space` or
  `ArrowRight` moves to the next slide, `ArrowLeft` moves to the previous
  one, and every other key does nothing. The module `Slides` has a pure step
  function `Step` over the slide index. It also has a class `Page` whose
  `hash` field is the URL fragment; `OnLoad` and `Navigate` assign it. The
  hash is written as `'slide' + n` and read back with
  `parseInt(id.substring(5))`. Both are modelled (`SlideId`, `ParseInt`,
  `Substring`), and the round trip is proved.

The script has two assumptions that the model makes explicit:
- The deck's sections have the ids `slide0` … `slide<count-1>`, in that
  order. The page that produces them is not part of this model.
- `:target` selects the section whose id equals the fragment (`ActiveSlide`).

The handler reads the active slide's id on line 8 and only tests whether a
slide was found on line 13. So when no section is targeted, the handler
throws a TypeError before that test. `Navigate` models this as
`threw == true` with the hash left unchanged. The `activeSlide &&` test on
line 13 then always holds.

## Model

| member | source | states |
|---|---|---|
| `Chain.SeqIter.constructor` | src/lib.rs:178 | a fresh slice iterator over `items`, with nothing consumed |
| `Chain.SeqIter.Next` | src/lib.rs:105 | yields the item under the cursor and advances it; yields `None` exactly when nothing is left, and then stays exhausted; the item yielded followed by what is left is what was left before; every call counts as one poll |
| `Chain.NaiveChain.constructor` | src/lib.rs:91-93 | starts in `Front`, holds `a` and `b` unpolled, and has all of `a`'s rest and then `b`'s rest still to yield |
| `Chain.NaiveChain.Next` | src/lib.rs:103-114 | in `Front`, `a` is polled once, a `Some` from it is returned, the state stays `Front` and `b` is untouched; the first `None` from `a` switches to `Back` and returns what `b.next()` yields; in `Back` the state stays `Back`, `a` is never polled and `b` answers; in every case `None` is returned exactly when nothing of `a` and `b` remains, and then nothing remains still; a returned item followed by what remains is what remained before |
| `Chain.Drain` | src/lib.rs:172-194 | draining `NaiveChain::new(xs.iter(), ys.iter())` to its first `None` yields exactly `xs + ys`, as `Iterator::chain` does |
| `Render.Repeat` | examples/traits.rs:25-27 | `n` copies of a unit has length `n` times the unit's length |
| `Render.RepeatSucc` | examples/traits.rs:25-27 | taking `n + 1` copies equals taking `n` copies followed by one unit |
| `Render.RepeatPrefix` | examples/traits.rs:25-27 | fewer copies give a prefix of more copies |
| `Render.RepeatAt` | examples/traits.rs:25-27 | character `j` of the `q`-th copy is character `j` of the unit |
| `Render.OccurrencesRepeat` | examples/traits.rs:25-27 | a character occurs `n` times as often in `n` copies as in one unit |
| `Render.Bees.Render` | examples/traits.rs:24-28 | the bee render has `2 * rows` characters, with U+1F41D at every even position and a line break at every odd one |
| `Render.Cactii.Render` | examples/traits.rs:36-40 | the cactus render has `cols` characters, every one U+1F335, and no line break |
| `Render.BeesSucc` | examples/traits.rs:24-28 | zero rows render as the empty string; `rows + 1` renders as `rows` followed by `"\u{1F41D}\n"` |
| `Render.CactiiSucc` | examples/traits.rs:36-40 | zero columns render as the empty string; `cols + 1` renders as `cols` followed by `"\u{1F335}"` |
| `Render.BeesLineCount` | examples/traits.rs:25-27 | a bee render holds exactly `rows` line breaks and `rows` bees |
| `Render.RenderPrefix` | examples/traits.rs:24-40 | rendering fewer rows or columns gives a prefix of rendering more |
| `Slides.DecimalString` | scripts.js:14 | the numeral of a number is a non-empty string of decimal digits, without a leading zero unless the number is 0 |
| `Slides.NumberToString` | scripts.js:14-18 | the string made from any integer slide number parses back to that number with `parseInt`, and starts with `-` exactly when the number is negative |
| `Slides.LeadingDigits` | scripts.js:8 | the run of digits that `parseInt` reads is the longest prefix made of digits, and is the whole string when it is all digits |
| `Slides.ParseInt` | scripts.js:8 | `parseInt` gives NaN exactly when no digit follows the optional sign; a non-empty string of digits reads as its value, and a `-` before such a string negates it; a negative result needs a leading `-` |
| `Slides.Substring` | scripts.js:8 | `substring(5)` is the suffix after the first five characters, or empty for a shorter string |
| `Slides.DigitsValueOfDecimal` | scripts.js:8 | the value of a numeral's digits is the number it was made from |
| `Slides.ParseDecimal` | scripts.js:8 | `parseInt` of the numeral of `n` gives `n` |
| `Slides.SlideId` | scripts.js:14 | a slide id starts with `slide` and has more after it |
| `Slides.SlideIdRoundTrip` | scripts.js:8 | dropping the first five characters of `'slide' + n` and parsing the rest gives back `n`, for every `n >= 0` |
| `Slides.SlideIdInjective` | scripts.js:14 | two slides have the same id exactly when they are the same slide |
| `Slides.HashFragment` | scripts.js:3 | assigning `location.hash` (here and on lines 14 and 18) a value that starts with `#` sets the fragment to the rest of it; any other value becomes the fragment as it is |
| `Slides.TargetFrom` | scripts.js:7 | the section found has the fragment as its id and lies in the searched range; when none is found, no section in the range has that id |
| `Slides.ActiveSlide` | scripts.js:7 | the active slide is a slide of the deck whose id is the fragment; when there is none, no slide of the deck has the fragment as its id |
| `Slides.ActiveSlideOfId` | scripts.js:7 | the fragment of slide `k` selects slide `k` exactly when `k < slideCount`, and otherwise selects nothing |
| `Slides.RequestedNext` | scripts.js:10 | a key that asks for the next slide is never `ArrowLeft` |
| `Slides.RequestedPrev` | scripts.js:11 | no key asks for both the previous and the next slide, so at most one of the two moves on lines 13-19 applies |
| `Slides.Step` | scripts.js:10-19 | `Space` or `ArrowRight` moves from `n` to `n + 1` exactly when `n < slideCount - 1`, and otherwise stays; `ArrowLeft` moves to `n - 1` exactly when `n > 0`, and otherwise stays; any other key stays; an index in `[0, slideCount - 1]` stays in that range |
| `Slides.StepInverse` | scripts.js:13-19 | moving forward and then back from any slide but the last returns to it, and so does moving back and then forward from any slide but the first |
| `Slides.Page.OnLoad` | scripts.js:3 | on load the fragment becomes `slide0` |
| `Slides.OnLoadActive` | scripts.js:3 | after load, slide 0 is active exactly when the deck has at least one slide |
| `Slides.Page.Navigate` | scripts.js:5-20 | the handler throws exactly when no slide is active, and then leaves the hash alone; otherwise the hash becomes the id of `Step` of the active slide's number, so an unhandled key leaves it unchanged |
| `Slides.StepKeepsActive` | scripts.js:13-19 | after a key press on an active slide the fragment still names a slide of the deck, so the next key press does not throw |

## Left out

- `sum_sq_iter`, `sum_sq_loop`, `dot_product_iter` and `dot_product_loop` (src/lib.rs:54-76) are left out. They are `f32` floating-point reductions, and floating point is not modelled.
- The benchmark harness (src/lib.rs:125-195) is left out: it uses `test::Bencher` and `black_box`. The only use of it is `Chain.Drain`, which states what the chain yields. It does not model the map-and-sum that the benchmark performs on `f32`.
- `Chain.NaiveChain`: `a` and `b` are generic iterators in the source. Here they are slice iterators, which keep yielding `None` once exhausted. An iterator that yields again after a `None` is not modelled.
- `write_to_console_static`, `write_to_console_dynamic` and `main` (examples/traits.rs:44-69) are left out. They only print, and static versus dynamic dispatch has no behaviour to state. The `Render` trait is not modelled as such: each `render` is a member function of its own datatype.
- `Render.Bees.Render` and `Render.Cactii.Render` take `rows` and `cols` as unbounded naturals. The `usize` bound and allocation failure are not modelled.
- examples/data_race.rs is not modelled (rayon parallel iteration and atomics), and neither is examples/proc_macros.rs (calls into `serde_json`).
- The DOM is not modelled: `addEventListener` (scripts.js:2), `querySelectorAll('section')` and `querySelector(':target')` (lines 6-7). The number of sections and the fragment are inputs, and `ActiveSlide` searches the assumed ids `slide0` … `slide<count-1>`.
- `Slides.ParseInt` covers an optional sign and the longest run of decimal digits. It does not cover `parseInt`'s skipping of leading whitespace or its `0x` hexadecimal prefix; neither can occur in a slide id.
- `Slides.Substring` counts characters (Unicode scalar values), whereas JavaScript's `substring` counts UTF-16 code units, so the two differ on a string with a character outside the Basic Multilingual Plane before the cut. The handler only cuts an id that `ActiveSlide` has matched as `slide<digits>`, which is ASCII, so the difference never arises there.
- `Slides.HashFragment` drops one leading `#` but does not model the percent-encoding that the `location.hash` setter applies to space, `"`, `<`, `>` and backtick. The handler only assigns `#slide0` and `slide<digits>`, which contain none of these.
- JavaScript numbers are doubles, but the model uses unbounded integers. Slide numbers above 2^53 are not modelled.
- `Slides.Page.Navigate` returns a flag for the TypeError. It does not model the exception propagating out of the event handler.
- The markdown slide/notes splitter that generates the deck is not part of this model.
