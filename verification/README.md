# WhatsNewKit title slide, modelled in Dafny

This project models the logic in `WhatsNewTitleViewController`, the "title slide" of the WhatsNewKit onboarding flow. The slide is an image over a title. Part of the title may be drawn in a secondary colour. The slide may also have an entrance animation, which plays once the slide has appeared. Two pieces of logic are modelled:

- **The partial-colour title** (`attributed_title.dfy`, module `AttributedTitle`). The title is a `seq<char>` with one element per user-perceived character. The attributed string is those characters plus at most one foreground-colour attribute `(location, length, color)`. `Build` is the private `NSAttributedString(text:colorConfiguration:)` initialiser. `TitleLabelText` is the label's choice between attributed and plain text.
- **The reveal and one-shot animation** (`title_slide.dfy`, module `TitleSlide`). A `Slide` records the title, the configuration (whose `animation` field the slide clears), the label, the background colour, whether the view is hidden, and the log of animation invocations made so far. `Init` is the initialiser. `ViewDidAppear` is the appear callback. `AppearTimes` and the method `Present` deliver any number of appear events.

`wrappers.dfy` holds the `Option` type that stands for Swift optionals.

Assumptions and deliberate choices:

- **One UTF-16 unit per character.** The guard counts Swift `Character`s (`dropFirst(startIndex).count`). The attribute's `NSRange` counts UTF-16 code units. The model identifies the two, so a character is one element of the `seq<char>`. The `Utf16` part of `AttributedTitle` makes the assumption explicit: `OneUnitRangeIsCharacterRange` proves the two measures agree when every character is one unit. `WideCharacterShiftsOffset` proves a two-unit character before the range moves the range. `GuardedRangeFitsUtf16` proves that, whatever the widths, a range with positive length that passes the guard still ends inside the UTF-16 string.
- **Zero length.** With `length == 0` the guard `dropFirst(startIndex).count >= 0` always holds. The code then asks Foundation to attach an empty colour range at `startIndex`, even when `startIndex` lies past the end of the text. The model keeps that request as an attribute `(startIndex, 0, color)`. `EmptyLengthAlwaysAttaches` states the behaviour. `AttributeRangeInsideText` marks exactly the inputs whose range lies past the end.
- **Lazy label.** `titleLabel` is a lazy property. The initialiser reads `self.view` to set the background colour, which loads the view (`loadView` makes the stack view, which builds the label). So the label is computed once during construction, and `Init` computes it there.
- Colours and animations are opaque tokens compared by name. The timing profile `0.5` / `0.2` is held as two `real` constants, and no arithmetic is done on them.

## Model

| member | source | states |
|---|---|---|
| AttributedTitle.DropFirst | Sources/Components/Title/WhatsNewTitleViewController.swift:139 | `dropFirst(k)` leaves the suffix after `k` characters, so its length is `|text| - k`; it is empty once `k` reaches the end |
| AttributedTitle.Build | Sources/Components/Title/WhatsNewTitleViewController.swift:132-151 | the result keeps the input characters unchanged; an attribute is attached iff `length == 0` or `startIndex + length <= |text|`; the attached attribute is exactly `(startIndex, length, color)` |
| AttributedTitle.TitleLabelText | Sources/Components/Title/WhatsNewTitleViewController.swift:34-44 | the label uses attributed text iff a secondary colour is configured, and that text is the builder's result; either way it shows exactly the title's characters |
| AttributedTitle.BuildColorsExactlyTheRange | Sources/Components/Title/WhatsNewTitleViewController.swift:139-147 | position `i` carries the secondary colour iff the range lies inside the text and `i` is in `[startIndex, startIndex + length)`; every other position keeps the base colour |
| AttributedTitle.TooShortTailFallsBackToPlain | Sources/Components/Title/WhatsNewTitleViewController.swift:137-150 | when the tail is too short, the length is positive and the range passes the end; the result is the plain text with no colour attribute, not even on a valid prefix |
| AttributedTitle.GuardIsBoundsCheck | Sources/Components/Title/WhatsNewTitleViewController.swift:139 | for a positive length, the guard holds iff `startIndex + length <= |text|` |
| AttributedTitle.EmptyLengthAlwaysAttaches | Sources/Components/Title/WhatsNewTitleViewController.swift:139-147 | for length 0, the guard holds for every start index; the empty attribute `(startIndex, 0, color)` is attached and colours no character |
| AttributedTitle.AttributeRangeInsideText | Sources/Components/Title/WhatsNewTitleViewController.swift:139-147 | an attached attribute ends inside the text unless it is the zero-length range placed past the end |
| AttributedTitle.LabelColoring | Sources/Components/Title/WhatsNewTitleViewController.swift:35-44 | a label without a secondary colour colours nothing; with one, it colours exactly the positions the builder colours |
| AttributedTitle.HelloWorldColorsWorld | Sources/Components/Title/WhatsNewTitleViewController.swift:139-147 | in "Hello World" with `(6, 5, red)`, "World" is red and "Hello " keeps the base colour |
| AttributedTitle.ShortTitleStaysPlain | Sources/Components/Title/WhatsNewTitleViewController.swift:139 | in "Hi" with `(5, 3, red)`, the range passes the end and the result is the plain string |
| AttributedTitle.GuardedRangeFitsUtf16 | Sources/Components/Title/WhatsNewTitleViewController.swift:139-146 | for any per-character UTF-16 widths of at least 1, a guarded range with positive length ends within the UTF-16 length |
| AttributedTitle.OneUnitRangeIsCharacterRange | Sources/Components/Title/WhatsNewTitleViewController.swift:143-146 | when every character is one UTF-16 unit, the UTF-16 offsets of `startIndex` and `startIndex + length` equal the character indices |
| AttributedTitle.WideCharacterShiftsOffset | Sources/Components/Title/WhatsNewTitleViewController.swift:143-146 | a character of two or more UTF-16 units before position `k` makes the UTF-16 offset of `k` exceed `k`, so the one-unit assumption is needed |
| TitleSlide.Init | Sources/Components/Title/WhatsNewTitleViewController.swift:74-88 | after construction the view is hidden iff an animation is configured; nothing has played yet; the title, configuration and background colour are taken from the inputs; the label is the one the title label's lazy initialiser builds (lines 35-44), reached through the view load at line 85 |
| TitleSlide.ViewDidAppear | Sources/Components/Title/WhatsNewTitleViewController.swift:105-119 | after an appear event the view is shown and the animation is cleared, whatever the prior state; exactly one invocation is appended if an animation was present, with duration 0.5 and delay 0.2; earlier invocations and the rest of the slide are unchanged |
| TitleSlide.ViewDidAppearIdempotent | Sources/Components/Title/WhatsNewTitleViewController.swift:105-119 | a second appear event right after the first changes nothing |
| TitleSlide.AppearTimesIsFirstAppearance | Sources/Components/Title/WhatsNewTitleViewController.swift:105-119 | any positive number of appear events ends in the same state as the first one alone |
| TitleSlide.PlaysAtMostOnce | Sources/Components/Title/WhatsNewTitleViewController.swift:87-118 | after construction and `n` appear events, the invocation log is exactly one call of the configured animation with timing 0.5/0.2 when `n >= 1` and an animation was configured, and empty otherwise; after `n >= 1` events the view is shown and the animation cleared |
| TitleSlide.AnimationInvokedAtMostOnce | Sources/Components/Title/WhatsNewTitleViewController.swift:110-118 | after construction and any number of appear events, at most one animation invocation has been made |
| TitleSlide.Present | Sources/Components/Title/WhatsNewTitleViewController.swift:74-119 | constructing and delivering `n` appear events in a loop leaves the view hidden iff `n == 0` and an animation is configured, and plays the configured animation once iff `n >= 1` |

## Left out

- Layout helpers `anchor`, `center`, `centerX`, `centerY`, `setDimensions` and `addConstraintsToFillView` (lines 155-230). These are Auto Layout constraint plumbing with no behaviour to state.
- Stack view and image view construction (lines 48-65), `loadView` (lines 98-100), the `UIImage(named:)` asset lookup (line 52), and the fixed 275×60 and 90×90 sizes. These are view-hierarchy wiring and resource loading.
- `init?(coder:)`, which always returns nil (lines 91-93). No slide is ever built that way, so the model has no such constructor.
- What an animation does when invoked. `animation.rawValue(label, timing)` schedules asynchronous UIKit work. The model only records the invocation, and leaves out the target label, which is always the title label.
- The `animated` argument of `viewDidAppear` and the `super.viewDidAppear` call. The argument is only passed to UIKit, so an appear event carries no data in the model.
- Fonts, title colour, alignment and label line-breaking settings (lines 27-32). These are opaque values handed to UIKit. Colours are opaque tokens.
- AttributedTitle.Build: grapheme-cluster versus UTF-16 segmentation is not modelled. One character is one element and one UTF-16 unit, so the attribute range counts characters. The `Utf16` lemmas bound what this assumption hides.
- AttributedTitle.SecondaryColor: `startIndex` and `length` are Swift `Int`s but are `nat` here. A negative `startIndex` traps in `dropFirst`. A negative `length` with a guard that passes would make an invalid `NSRange`. Neither is a supported input.
- AttributedTitle.Build: a zero-length range whose `startIndex` lies past the end of the text makes `addAttributes(_:range:)` raise `NSRangeException`, so the program traps on that input. The model does not represent the trap. It returns the requested attribute `(startIndex, 0, color)`, and `AttributeRangeInsideText` marks exactly those inputs.
