# Bistro Beni menu generator — a Dafny model

The menu generator is a single React component. An operator edits three fixed
sections of a lunch menu (soups, dishes, desserts). Each section is an ordered
list of items, and each item holds three text fields: a name, a price in BGN
and a price in EUR. A preview renders the menu, and a button saves the preview
as a PNG whose file name comes from the restaurant name.

This project models that component's logic:

- `MenuItems` (`menu_items.dfy`): the item record and the three editor handlers.
  These are: set one field of the item at a position, remove the item at a
  position, and append a blank item.
- `MenuPreview` (`menu_preview.dfy`): what the preview renders from the three
  lists. Unnamed items are filtered out, keeping their order. A section appears
  only when something survives the filter. Each row gets a price label built
  from an optional BGN part and an optional EUR part.
- `DownloadName` (`download_name.dfy`): the download file name
  `menu-<name with each whitespace run replaced by "-", lower-cased>.png`.
- `Generator` (`generator.dfy`): the component's state as a class. It holds the
  restaurant name, the three lists, the `isDownloading` flag and the wrapper
  element with its inline `transform`. Its methods are the handlers, including
  `handleDownload`.
- `Wrappers` (`wrappers.dfy`): an `Option` type.

Facts about the code that the model follows:

- The component has no layout-fitting engine, no export presets, no spacing
  parameters and no saved menus, so none are modelled.
- The exported file is named after the restaurant name typed into the editor
  (line 221).
- The preview transform is restored only when the capture returns normally:
  line 218 is inside `try`, not `finally`. See "## Findings".

## Model

| member | source | states |
|---|---|---|
| `MenuItems.SetField` | src/MenuGenerator.jsx:131-156 | Setting field `f` of item `idx` to `v` keeps the list length. The item at `idx` holds `v` in `f` and its other two fields are unchanged. Every other item is unchanged, and so are the prefix before `idx` and the suffix after it. |
| `MenuItems.EditCopy` | src/MenuGenerator.jsx:132-134 | The handler's own steps: copy the list into an array, then assign into element `idx`. The result is exactly `SetField`. |
| `MenuItems.RemoveAt` | src/MenuGenerator.jsx:162 | Filtering by "index differs from `idx`": for a valid `idx` the result is one shorter and equals `items[..idx] + items[idx+1..]`; for any other `idx` the list is unchanged. |
| `MenuItems.AppendBlank` | src/MenuGenerator.jsx:170-171 | Appending gives one more item. The old list is an unchanged prefix, and the new last item is the blank item `{name: "", priceBGN: "", priceEUR: ""}`. |
| `MenuItems.RemoveAppendedBlank` | src/MenuGenerator.jsx:162-171 | Removing the row just appended gives back the list from before the append. |
| `MenuItems.SetFieldSameValue` | src/MenuGenerator.jsx:131-134 | Writing the value a field already holds leaves the list unchanged. |
| `MenuItems.SetFieldTwice` | src/MenuGenerator.jsx:131-134 | Two edits of the same field of the same item are equivalent to the second one alone. |
| `MenuPreview.Visible` | src/MenuGenerator.jsx:59-60 | `items.filter((i) => i.name)`: the body is the definition. The result is never longer than the list. The filter is characterised by `VisibleAppend` with `VisibleSingle` (named items are kept, in order) and by `VisibleMembers`. |
| `MenuPreview.VisibleAppend` | src/MenuGenerator.jsx:59-60 | Filtering a concatenation is the concatenation of the filtered halves. Together with `VisibleSingle`, this means the filter keeps named items in source order. |
| `MenuPreview.VisibleSingle` | src/MenuGenerator.jsx:59-60 | A one-item list survives the filter exactly when the item's name is non-empty. |
| `MenuPreview.VisibleMembers` | src/MenuGenerator.jsx:59-60 | An item is rendered if and only if it is in the list and its name is non-empty. |
| `MenuPreview.VisibleNamed` | src/MenuGenerator.jsx:59-60 | Every rendered item has a non-empty name. |
| `MenuPreview.VisibleAllNamed` | src/MenuGenerator.jsx:59-60 | A list in which every item is named is rendered whole. |
| `MenuPreview.VisibleEmptyIff` | src/MenuGenerator.jsx:56 | The filtered list is empty if and only if no item has a name. |
| `MenuPreview.VisibleAround` | src/MenuGenerator.jsx:59-60 | The filter splits at any position: the part before it, the item itself if named, the part after it. |
| `MenuPreview.Label` | src/MenuGenerator.jsx:64-68 | The BGN part is present if and only if the BGN price is non-empty, and then reads `<priceBGN> лв`. The EUR part is present if and only if the EUR price is non-empty, and then reads `/  <priceEUR>€`. The label text is empty if and only if both prices are empty. |
| `MenuPreview.LabelDeterminesPrices` | src/MenuGenerator.jsx:64-68 | Two items with the same label have the same two prices. |
| `MenuPreview.RowOf` | src/MenuGenerator.jsx:62-70 | The row of an item shows the item's name. Its price cell is empty if and only if both prices are empty. |
| `MenuPreview.Rows` | src/MenuGenerator.jsx:61-70 | The `.map` gives one row per filtered item, in list order, and row `i` shows the name of item `i`. |
| `MenuPreview.Part` | src/MenuGenerator.jsx:56-73 | A section yields at most one rendered section. It yields one if and only if its filtered list is non-empty. That section carries the section's heading and lists one row per filtered item. |
| `MenuPreview.Render` | src/MenuGenerator.jsx:56-111 | The three section blocks: the body is the definition. The page holds at most three sections. It is characterised by `SectionShown`, `RenderRows` and `RenderOrdered`. |
| `MenuPreview.SectionShown` | src/MenuGenerator.jsx:56-111 | Section `s` appears on the page if and only if some item of `s` has a non-empty name. |
| `MenuPreview.RenderRows` | src/MenuGenerator.jsx:56-111 | Each rendered section carries its own heading ("Супи", "Ястия" or "Десерти"). Its rows are exactly the rows of its list's named items, in order, and there is at least one row. |
| `MenuPreview.RenderOrdered` | src/MenuGenerator.jsx:56-111 | Rendered sections follow the fixed order soups, dishes, desserts, and none appears twice. |
| `MenuPreview.SameVisibleSameRender` | src/MenuGenerator.jsx:56-111 | The page depends on a section's list only through its filtered list. |
| `MenuPreview.AppendBlankKeepsRender` | src/MenuGenerator.jsx:170-171 | Appending a blank item to any section leaves the rendered page unchanged. |
| `MenuPreview.RemoveUnnamedKeepsRender` | src/MenuGenerator.jsx:162 | Removing an item with an empty name leaves the rendered page unchanged. |
| `MenuPreview.VisibleRemoveUnnamed` | src/MenuGenerator.jsx:162 | Removing an item with an empty name leaves the filtered list unchanged. |
| `MenuPreview.ClearNameHidesLikeRemove` | src/MenuGenerator.jsx:131-134 | Clearing an item's name changes the filtered list of its section exactly as removing the item would. |
| `MenuPreview.EditPriceKeepsNames` | src/MenuGenerator.jsx:142-156 | Editing either price of an item leaves the sequence of names shown in its section unchanged. |
| `MenuPreview.RemoveOnlyItemHidesSection` | src/MenuGenerator.jsx:162 | Removing the only item of a section takes that section off the page. |
| `DownloadName.IsWhitespace` | src/MenuGenerator.jsx:221 | The `\s` class of the regular expression, as the set of characters ECMAScript matches with it. The `-` that replaces a run is not in that set. |
| `DownloadName.Lower` | src/MenuGenerator.jsx:221 | The result of lower-casing a character is never an upper-case letter. A character that is not upper-case is left alone, and whitespace stays whitespace while everything else stays non-whitespace. |
| `DownloadName.LowerStringNoUpper` | src/MenuGenerator.jsx:221 | `toLowerCase` as `LowerString`, which lower-cases each character in place: the length is kept and no upper-case letter is left. |
| `DownloadName.DropWhitespace` | src/MenuGenerator.jsx:221 | What is left after skipping a whitespace run is no longer, and is empty or starts with a non-whitespace character. |
| `DownloadName.DropWhitespaceSuffix` | src/MenuGenerator.jsx:221 | Skipping a run removes only whitespace, and keeps a suffix of the input. |
| `DownloadName.Dashify` | src/MenuGenerator.jsx:221 | Replacing the whitespace runs never makes the text longer. |
| `DownloadName.DashifyNoWhitespace` | src/MenuGenerator.jsx:221 | The replaced text holds no whitespace character. |
| `DownloadName.DashifyWord` | src/MenuGenerator.jsx:221 | Text without whitespace passes through the replacement unchanged. |
| `DownloadName.DashifyAppend` | src/MenuGenerator.jsx:221 | The replacement is compositional at any boundary that does not fall inside a whitespace run. |
| `DownloadName.DashifyLeadingRun` | src/MenuGenerator.jsx:221 | A leading whitespace run becomes one `-`, provided what follows it starts with a non-whitespace character or is empty. |
| `DownloadName.DashifyRun` | src/MenuGenerator.jsx:221 | Each maximal whitespace run becomes exactly one `-`. |
| `DownloadName.SlugRun` | src/MenuGenerator.jsx:221 | In the slug, each maximal whitespace run of the name becomes exactly one `-`, and the text on both sides is handled on its own. |
| `DownloadName.SlugWord` | src/MenuGenerator.jsx:221 | In a name without whitespace, every character is lower-cased in place and in order. |
| `DownloadName.Slug` | src/MenuGenerator.jsx:221 | `name.replace(/\s+/g, "-").toLowerCase()`: the body is the definition. The slug is never longer than the name and holds no whitespace and no upper-case letter. It is characterised by `DashifyRun`/`SlugRun` (each whitespace run becomes one `-`) and `DashifyWord`/`SlugWord` (other text is lower-cased in place). |
| `DownloadName.LowerCommutes` | src/MenuGenerator.jsx:221 | Lower-casing before or after the replacement gives the same result, so the order of `replace` and `toLowerCase` does not matter. |
| `DownloadName.Filename` | src/MenuGenerator.jsx:221 | The template literal: the body is the definition. The file name is nine characters longer than the slug: `menu-`, then the slug, then `.png`. It is characterised by `FilenameShape`. |
| `DownloadName.FilenameShape` | src/MenuGenerator.jsx:221 | The file name starts with `menu-` and ends with `.png`. Between them is exactly the slug, which holds no whitespace. |
| `DownloadName.FilenameTwoWords` | src/MenuGenerator.jsx:221 | For two words joined by a space, the file name is `menu-<word1 lower>-<word2 lower>.png`. |
| `DownloadName.DefaultFilename` | src/MenuGenerator.jsx:221 | The default name "Бистро Бени" gives `menu-бистро-бени.png`. |
| `Generator.MenuGenerator.constructor` | src/MenuGenerator.jsx:181-198 | The initial state: the default name, the three default lists, not downloading, and no mounted wrapper. |
| `Generator.MenuGenerator.Lists` | src/MenuGenerator.jsx:457-462 | The preview receives exactly the component's three lists, each in its own section. |
| `Generator.MenuGenerator.Page` | src/MenuGenerator.jsx:457-462 | The page the preview shows for the current state holds at most three sections. It is empty if and only if no list has a named item. |
| `Generator.MenuGenerator.Mount` | src/MenuGenerator.jsx:449-456 | A fresh wrapper is mounted with the preview transform `scale(0.55)`. Nothing else changes. |
| `Generator.MenuGenerator.SetName` | src/MenuGenerator.jsx:401 | The name becomes the typed text. Nothing else changes. |
| `Generator.MenuGenerator.SetItems` | src/MenuGenerator.jsx:182-195 | A section's setter replaces that section's list. Nothing else changes. |
| `Generator.MenuGenerator.EditItem` | src/MenuGenerator.jsx:131-156 | The edited section's list becomes `SetField` of the old list. Everything else is unchanged. |
| `Generator.MenuGenerator.RemoveItem` | src/MenuGenerator.jsx:162 | The section's list becomes `RemoveAt` of the old list. Everything else is unchanged. |
| `Generator.MenuGenerator.AddItem` | src/MenuGenerator.jsx:170-171 | The section's list becomes `AppendBlank` of the old list. The rendered page is unchanged, and so is everything else. |
| `Generator.MenuGenerator.HandleDownload` | src/MenuGenerator.jsx:200-230 | With no wrapper mounted it changes nothing and downloads nothing. Otherwise `isDownloading` ends false on every path. The transform is back at its value before the call unless the capture threw, in which case it stays `none`. The file `Filename(name)` is downloaded only when every step succeeds, and any failure shows an error. |
| `Generator.MenuGenerator.HandleDownloadRestoring` | src/MenuGenerator.jsx:205-229 | The corrected handler: as above, except that the transform is restored on every path. |
| `Generator.FailedCaptureLeavesPreviewUnscaled` | src/MenuGenerator.jsx:205-229 | On a mounted preview, a failing capture changes the transform from `scale(0.55)` to `none`. |
| `Generator.FailedCaptureRestoresPreview` | src/MenuGenerator.jsx:205-229 | With the corrected handler, a failing capture leaves the transform at `scale(0.55)`. |
| `Generator.DefaultDownload` | src/MenuGenerator.jsx:221 | Downloading the menu as first shown produces `menu-бистро-бени.png`. |

## Findings

| source | as written | input that shows it | evidently intended | confidence | as-written member | corrected member |
|---|---|---|---|---|---|---|
| src/MenuGenerator.jsx:205-229 | The transform is restored at line 218, inside `try`. When `html2canvas` throws, control skips to `catch`, and the preview keeps `transform: none`. | A mounted preview at `scale(0.55)` with a capture that throws | Restore the saved transform in `finally`, so a failed capture still returns the preview to its scale. This matches the comments "Temporarily remove scale" and "Restore scale". | not executed; medium | `Generator.FailedCaptureLeavesPreviewUnscaled` | `Generator.MenuGenerator.HandleDownloadRestoring` |

## Left out

- Rasterisation (`html2canvas`), `toDataURL`, creating and clicking the link, `alert` and `console.error` are foreign calls and I/O. They are reduced to a `Capture` outcome: the capture throws, a later step throws, or all succeed. The error message is reduced to the `alerted` flag, and the download to the file name.
- `handleDownload` is asynchronous. The model runs it as one step, so the intermediate state during the capture is not observable. In that state `isDownloading` is true and the button is disabled (line 437).
- React hooks, re-rendering, JSX markup, inline CSS, the corner ornament SVG and the fixed header and footer texts are presentation. The preview's `name` prop is unused, because the header text is fixed at line 41.
- MenuItems.EditCopy: the items are modelled as values. The source copies only the array (`[...items]`), so `updated[idx].name = ...` also changes the item object that the previous list shares. That aliasing is not modelled.
- DownloadName.Lower: models JavaScript `toLowerCase` only for the upper-case letters of ASCII, Latin-1 and the Cyrillic block U+0400–U+042F. Other scripts, and the cases where lower-casing changes the length of a string, are not modelled.
- DownloadName.IsWhitespace is the character set that the ECMAScript `\s` class matches. Strings are sequences of Unicode scalar values, not of UTF-16 code units.
- The editor calls `EditItem` only for an existing row, so `EditItem` requires a valid index. In JavaScript an out-of-range index would throw a `TypeError`.
