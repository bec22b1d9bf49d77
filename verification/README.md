# ArrowCard: tag colours and card data

This project models, in Dafny, the one piece of decision logic in a static
blog/portfolio site: the arrow card that lists a blog post or a project
(`src/components/ArrowCard.tsx`). The card has two parts:

- **Tag colour resolver** (`getTagBackgroundColor`). It lower-cases a tag and
  looks it up in a fixed four-entry table of background-colour class tokens.
  The `||` fallback returns the default token `bg-black/5 dark:bg-some-blue`.
- **Card data** (the non-markup part of `ArrowCard`). It builds the link
  `/<collection>/<slug>` and the optional kind pill: `post` for the blog
  collection, `project` otherwise, shown only when the `pill` prop is true. It
  also builds one badge per tag, in order, each keeping the tag's text and
  carrying its resolved colour.

Files:

- `wrappers.dfy`: module `Wrappers`. `Option`, where `None` stands for JavaScript's `undefined`.
- `ascii_case.dfy`: module `AsciiCase`. ASCII lower-casing (`Lower`), a character-by-character case-insensitive equality that does not lower-case either string (`EqualIgnoringCase`), and `IndexOf`.
- `tag_colors.dfy`: module `TagColors`. The table, the default token, the `||` fallback (`OrElse`), `TagColor`, and its properties.
- `arrow_card.dfy`: module `ArrowCard`. `Entry`, `Badge`, `Card`, `Href` and its inverse `SplitHref`, `PillLabel`, `Badges` and `RenderCard`, with their properties.

The link has a leading slash and is built from the collection name
(`blog`, `projects`). The card carries the pill's label (`post`/`project`).

Rendering is a pure function, so rendering the same entry twice gives equal cards by construction.

## Model

| member | source | states |
|---|---|---|
| AsciiCase.LowerChar | src/components/ArrowCard.tsx:19 | one character's fold: an upper-case ASCII letter becomes its lower-case partner, every other character (non-ASCII capitals included) is kept, and the result is never an ASCII capital |
| AsciiCase.SameLowerCharIff | src/components/ArrowCard.tsx:19 | two characters fold to the same character exactly when they are the same letter ignoring case (both directions) |
| AsciiCase.Lower | src/components/ArrowCard.tsx:19 | the lower-cased key has the tag's length, folds each character independently, and contains no upper-case ASCII letter |
| AsciiCase.LowerIdempotent | src/components/ArrowCard.tsx:19 | lower-casing an already lower-cased key changes nothing |
| AsciiCase.EqualIgnoringCaseIffSameLower | src/components/ArrowCard.tsx:18-19 | two tags have the same lookup key exactly when they are equal ignoring case, character by character, a relation defined without lower-casing (both directions) |
| TagColors.ColorTableWellFormed | src/components/ArrowCard.tsx:10-16 | the table's keys are lower-case, its tokens are non-empty, distinct, and different from the default |
| TagColors.Lookup | src/components/ArrowCard.tsx:10-22 | the property read is undefined exactly for tags that are not keys of the closed four-key table; otherwise it yields that key's token |
| TagColors.OrElse | src/components/ArrowCard.tsx:22 | JavaScript's `\|\|`: a defined, non-empty left side is returned; an undefined or empty one gives the right side; a non-empty fallback never yields the empty string |
| TagColors.TagColor | src/components/ArrowCard.tsx:9-23 | the resolver is total, never returns the empty string, and returns either the default or one of the table's tokens |
| TagColors.TagColorOnHit | src/components/ArrowCard.tsx:21-22 | a tag whose lower-cased form is a key gets that key's token, so the `\|\|` fallback never fires on a hit |
| TagColors.TagColorDefaultIffMiss | src/components/ArrowCard.tsx:21-22 | the default token comes out exactly when the lower-cased tag is not a key |
| TagColors.TagColorCaseInsensitive | src/components/ArrowCard.tsx:19-22 | a tag and its lower-cased form get the same colour |
| TagColors.SameColorIgnoringCase | src/components/ArrowCard.tsx:18-22 | tags that are equal ignoring case get the same colour |
| TagColors.TagColorMatchesKey | src/components/ArrowCard.tsx:10-22 | a tag gets a key's token exactly when it equals that key ignoring case: no trimming, no partial match |
| TagColors.TagColorDefaultIffNoMatch | src/components/ArrowCard.tsx:10-22 | a tag gets the default exactly when it equals no key ignoring case |
| TagColors.IosResolves | src/components/ArrowCard.tsx:11-22 | `ios`, `iOS` and `IOS` all resolve to `bg-salmon` |
| TagColors.TutorialResolves | src/components/ArrowCard.tsx:12-22 | `tutorial` and `Tutorial` resolve to `bg-periwinkle` |
| TagColors.UIKitResolves | src/components/ArrowCard.tsx:13-22 | `uikit` and `UIKit` resolve to `bg-torch-lake` |
| TagColors.FunctionalProgrammingResolves | src/components/ArrowCard.tsx:14-22 | `functional programming` and `Functional Programming` resolve to `bg-lavender` |
| TagColors.NearMissesGetDefault | src/components/ArrowCard.tsx:19-22 | ` ios`, `io`, `ios ` and the empty tag get the default token |
| ArrowCard.Href | src/components/ArrowCard.tsx:27 | the link is `/`, the collection, `/`, the slug, in that order. `SplitHref`, `HrefRoundTrip` and `HrefInjective` show that it determines both parts |
| ArrowCard.SplitHref | src/components/ArrowCard.tsx:27 | a link that reads back yields a slash-free collection and a slug that rebuild exactly that link |
| ArrowCard.HrefRoundTrip | src/components/ArrowCard.tsx:27 | a link built from a slash-free collection name reads back to its collection and slug |
| ArrowCard.HrefInjective | src/components/ArrowCard.tsx:27 | for slash-free collection names, two links are equal exactly when collections and slugs are |
| ArrowCard.PillLabel | src/components/ArrowCard.tsx:30-33 | the pill exists exactly when `pill` is true; it reads `post` exactly for the blog collection and `project` exactly for any other |
| ArrowCard.Badges | src/components/ArrowCard.tsx:47-51 | one badge per tag, at the same position, keeping the tag text as written and carrying that tag's resolved colour |
| ArrowCard.BadgeTextsRoundTrip | src/components/ArrowCard.tsx:47-51 | the badge texts give back the tag list exactly: nothing lower-cased, dropped or reordered |
| ArrowCard.BadgesAppend | src/components/ArrowCard.tsx:47 | badging a concatenation is the concatenation of the badgings, so tag order is kept |
| ArrowCard.BadgeColorsIgnoreCase | src/components/ArrowCard.tsx:47-48 | tag lists that agree ignoring case position by position get the same badge colours |
| ArrowCard.RenderCard | src/components/ArrowCard.tsx:25-51 | the card's link is `/` + collection + `/` + slug, and the pill follows the `pill` prop and the collection. Title and summary are passed through untruncated, the date goes through the formatter, and the badges carry the tags in order with their colours |
| ArrowCard.CardLinkIdentifiesEntry | src/components/ArrowCard.tsx:27 | a rendered card's link reads back to its entry's collection and slug |
| ArrowCard.DistinctEntriesDistinctLinks | src/components/ArrowCard.tsx:27 | distinct entries of the blog and projects collections get distinct links, whatever the pill props and date formatters of the two cards |
| ArrowCard.RenderExample | src/components/ArrowCard.tsx:27-51 | a blog post tagged `Swift`, `iOS` links to `/blog/hello-world`, shows the `post` pill, and has badges `Swift` (default) then `iOS` (`bg-salmon`) |
| ArrowCard.NoTagsNoBadges | src/components/ArrowCard.tsx:30-51 | an entry without tags gets no badges whatever the `pill` prop, and an omitted `pill` prop shows no pill |

## Left out

- JSX markup, CSS classes other than the colour token, the SVG arrow, and `line-clamp-2` truncation (src/components/ArrowCard.tsx:27-58): presentation only, with no data transformation.
- `formatDate`: it is imported from `@lib/utils`, which is not part of this model. `RenderCard` takes it as a function parameter and applies it to the entry's date.
- Loading and typing of content entries (`astro:content`, `CollectionEntry`): framework plumbing. Entries are taken as already valid records.
- AsciiCase.LowerChar: the per-character fold covers only ASCII `A`-`Z`. JavaScript's `toLowerCase` also folds other capitals, such as `À` to `à` and the Kelvin sign U+212A to `k`; the model keeps those characters unchanged.
- AsciiCase.Lower: folds only ASCII `A`-`Z`. JavaScript's `toLowerCase` also maps other Unicode letters, and locale-specific and multi-character mappings are out of scope.
- TagColors.Lookup: the read is over a closed four-key map. On the real object literal, inherited keys such as `constructor` and `__proto__` yield truthy non-string values; the model yields `None` for them.
- TagColors.TagColor: treats the table as a closed four-key map. On the real object literal, prototype-chain keys such as `constructor` or `__proto__` read inherited non-string values, which are truthy and so are returned instead of the default. The model gives those tags the default. Because lower-casing is ASCII-only, a tag that only a Unicode fold would turn into a key also gets the default here: `UIKIT` spelt with the Kelvin sign U+212A folds to `uikit` in JavaScript and gets `bg-torch-lake`.
- `src/consts.ts` and `tailwind.config.mjs`: site metadata, navigation links and theme colours. They are static data with no logic.
