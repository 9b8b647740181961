# Coffee roastery drafts — a Dafny model

This project models the two draft editors of a coffee-roastery order
management screen set:

- the **blend draft editor** of the coffee catalog
  (`src/components/CoffeeManagement.js`). It holds a `newCoffee` draft: a name,
  a kind (single origin or blend) and up to four `{coffee, percentage}` rows.
  Rows can be added and removed, and one field of one row can be edited.
  Editing a percentage runs a one-field auto-balance: when the total would
  pass 100, the edited row alone absorbs the overflow, floored at 0. A blend
  draft is only sent when `validateBlend` holds: the percentages total exactly
  100 and every row has a coffee and a percentage.
- the **order draft editor** (`src/components/OrderForm.js`). It holds an order
  made of a customer, a custom-labels flag, a delivery method and a list of
  coffee lines. Lines can be appended with defaults, removed by index and
  edited one field at a time. On submit the order is flattened into one record
  per line. Each record carries the shared customer fields and
  `completed: false`.

Layout:

- `lists.dfy`, module `Lists`: `Option`, and `Without`, the remove-by-index
  `filter` both editors use, with its lemmas.
- `coffee_catalog.dfy`, module `CoffeeCatalog`: percentages (`Pct = Empty |
  Num(int)`), the pure functions `Sum`, `ValidBlend`, `Added` and `WithEdit`,
  the lemmas about them, and the class `BlendEditor`.
- `order_form.dfy`, module `OrderForm`: lines, records, `WithField`,
  `Flatten` and its lemmas, and the class `OrderDraft`.

Each class holds the screen's state as fields. Its methods update those fields
and state the whole new state in terms of the pure functions. The properties
that matter are proved as lemmas about those functions and as invariants the
methods keep (`Balanced`: no negative share and a total of at most 100).

A percentage box is either empty or holds an integer. An empty box counts as 0
in every total (`Number(p || 0)`). It counts as missing in `validateBlend`'s
truthiness test. The text `"0"` counts as present.

The HTTP calls are not modelled. Each `Submit` returns what would be sent, and
takes a boolean `sendDidNotThrow` that says whether the request call returned
without throwing. The draft is reset only in that case. `fetch` does not throw
on an HTTP error status, so a catalog save the backend rejects still resets
the draft.

The code's behaviour on these points may be unexpected:

- `validateBlend` does not check the number of rows, and it does not require a
  share to be positive. `[A "100", B "0"]` passes, and so does a blend with a
  negative share that brings the total back to 100 (`ValidationExamples`,
  `NegativeShareAccepted`).
- A newly added row has an empty percentage, not 0.
- `handleRemoveComponent` and `removeCoffeeFromOrder` reject no index. It is
  the screen that offers removal only for rows after the first
  (CoffeeManagement.js:320-328, OrderForm.js:202-210). The lemmas therefore
  state what holds for `index > 0`.
- The draft the catalog screen starts with, and resets to after a save, has
  kind single origin and one empty row (CoffeeManagement.js:48-52, 137).
- There is no order validation in code. The `required` attributes are checked
  by the browser.

## Model

| member | source | states |
|---|---|---|
| Lists.Without | src/components/CoffeeManagement.js:83 | The positional filter that drops the row whose position equals `index`. |
| Lists.WithoutInRange | src/components/CoffeeManagement.js:83 | For an index inside the list, the result is the list with exactly that element cut out: the prefix before it followed by the suffix after it. |
| Lists.WithoutOutOfRange | src/components/CoffeeManagement.js:83 | For an index outside the list, nothing is removed. |
| Lists.WithoutAt | src/components/OrderForm.js:121 | Element-wise view of removal: one element fewer, earlier elements in place, later ones shifted down by one. Relative order is kept. |
| Lists.WithoutAppended | src/components/OrderForm.js:105-126 | Removing the element just appended gives back the original list. |
| CoffeeCatalog.Value | src/components/CoffeeManagement.js:97 | The number a percentage box stands for in a total: an empty box counts as 0 and a number as itself. |
| CoffeeCatalog.Sum | src/components/CoffeeManagement.js:110 | The `reduce` total of the shares. It is never negative when no share is negative. |
| CoffeeCatalog.Filled | src/components/CoffeeManagement.js:111 | The truthiness test `comp.coffee && comp.percentage`. A row with no coffee or an empty box fails it. A row with a coffee and the text "0" passes it. |
| CoffeeCatalog.ValidBlend | src/components/CoffeeManagement.js:109-112 | `validateBlend`. A blend that passes is non-empty and its first row is filled in. |
| CoffeeCatalog.NegativeShareAccepted | src/components/CoffeeManagement.js:109-112 | `[A 110, B -10]` passes validation: no range check is made on a share. |
| CoffeeCatalog.Balance | src/components/CoffeeManagement.js:100-103 | At a total of at most 100 the typed value is stored. Above 100 a number of 0 or more is stored, and the others' total S plus it equals max(S, 100). |
| CoffeeCatalog.Added | src/components/CoffeeManagement.js:73-80 | Below four rows, exactly one empty row is appended. At four or more, the rows are unchanged. The count never exceeds max(old count, 4). |
| CoffeeCatalog.AddKeepsBounds | src/components/CoffeeManagement.js:73-80 | Adding never takes a list of at most four rows past four, and it keeps a balanced draft balanced. |
| CoffeeCatalog.RemoveUndoesAdd | src/components/CoffeeManagement.js:73-88 | Removing the row just added restores the previous rows. |
| CoffeeCatalog.RemoveKeepsBounds | src/components/CoffeeManagement.js:82-88 | Removal keeps a balanced draft balanced. For `index > 0`, the only removals the dialog offers, a non-empty list stays non-empty and keeps its first row. |
| CoffeeCatalog.WithEdit | src/components/CoffeeManagement.js:90-106 | An edit keeps the row count. Every row other than `index` is unchanged. A coffee edit changes only that row's coffee, and a percentage edit keeps that row's coffee. |
| CoffeeCatalog.EditedTotal | src/components/CoffeeManagement.js:96-98 | The `reduce` loop: the edited row contributes the typed value, the others their stored shares, and the result equals `Sum` of the edited rows. |
| CoffeeCatalog.SumUpdate | src/components/CoffeeManagement.js:96-98 | Replacing one row changes the total by the new share minus the old one. |
| CoffeeCatalog.SumWithout | src/components/CoffeeManagement.js:96-101 | The total of the other rows, S, is the total minus the edited row's share. |
| CoffeeCatalog.ShareAtMostSum | src/components/CoffeeManagement.js:110 | With no negative share, each share lies between 0 and the total. |
| CoffeeCatalog.ClampRule | src/components/CoffeeManagement.js:95-104 | The stored percentage is `max(0, 100 - S)` when S + v > 100, and the typed v otherwise. |
| CoffeeCatalog.TotalAfterEdit | src/components/CoffeeManagement.js:95-104 | The total after a percentage edit is S + v when that is at most 100, and the larger of S and 100 otherwise. |
| CoffeeCatalog.EditBoundsTotal | src/components/CoffeeManagement.js:96-103 | When the other shares are non-negative and total at most 100, the edit leaves a total of at most 100. When it clamps, the total is exactly 100 and the stored share is in [0, 100]. |
| CoffeeCatalog.EditKeepsBalanced | src/components/CoffeeManagement.js:90-106 | Any edit with a non-negative value keeps a balanced draft balanced, so a run of such edits never pushes the total above 100. |
| CoffeeCatalog.EditIdempotent | src/components/CoffeeManagement.js:90-106 | Repeating the same edit on its own result changes nothing. |
| CoffeeCatalog.ReapplyStored | src/components/CoffeeManagement.js:96-103 | Typing the stored, possibly clamped, value back into the edited row leaves the draft unchanged. |
| CoffeeCatalog.ClampExample | src/components/CoffeeManagement.js:95-104 | Typing 50 into B of `[A 60, B empty]` stores 40. |
| CoffeeCatalog.ValidBlendShape | src/components/CoffeeManagement.js:109-112 | A blend that passes validation has at least one row. When no share is negative, every share lies in [0, 100]. |
| CoffeeCatalog.ValidationExamples | src/components/CoffeeManagement.js:109-112 | `[A 60, B 40]` passes. `[A 60, B 30]`, `[A 60, B 50]`, a blank percentage and the empty list fail. `[A 100, B "0"]` passes, because "0" counts as present. |
| CoffeeCatalog.BlendEditor.constructor | src/components/CoffeeManagement.js:48-52 | The starting draft: empty name, single-origin kind, one empty row. The dialog is single-origin and nothing is being edited. |
| CoffeeCatalog.BlendEditor.OpenAdd | src/components/CoffeeManagement.js:169-178 | A fresh draft of the chosen kind. A blend starts with exactly one empty row and a single origin with none. Nothing is being edited. |
| CoffeeCatalog.BlendEditor.OpenEdit | src/components/CoffeeManagement.js:158-167 | The entry is loaded as it is. Its kind, and the dialog's kind, are Blend exactly when it has a components list. Its id becomes the id being edited. |
| CoffeeCatalog.BlendEditor.SetName | src/components/CoffeeManagement.js:284 | Only the name changes. |
| CoffeeCatalog.BlendEditor.AddComponent | src/components/CoffeeManagement.js:73-80 | The rows become `Added` of the old rows and nothing else changes. It keeps the count at most four and keeps the balance. |
| CoffeeCatalog.BlendEditor.RemoveComponent | src/components/CoffeeManagement.js:82-88 | Exactly row `index` is removed and the others keep their order. Name and kind are unchanged. The balance is kept. For `index > 0` the first row stays. |
| CoffeeCatalog.BlendEditor.ChangeComponent | src/components/CoffeeManagement.js:90-107 | The rows become `WithEdit` of the old rows, computed with the copied array, the `reduce` loop and the clamp. Name and kind are unchanged. The balance is kept for non-negative input. |
| CoffeeCatalog.BlendEditor.Submit | src/components/CoffeeManagement.js:114-143 | Nothing is sent exactly when the dialog is a blend and the rows fail validation, and then the draft is kept. Otherwise the draft is sent as a create, or as an update by id while editing. The draft resets to the starting draft unless the send throws. |
| OrderForm.WithField | src/components/OrderForm.js:95-98 | The named field of the line takes the value and the other three fields keep theirs. |
| OrderForm.Record | src/components/OrderForm.js:51-60 | The record of one line carries the order's customer, labels flag and delivery method and `completed = false`, and its line can be read back from it. |
| OrderForm.Flatten | src/components/OrderForm.js:51-60 | Exactly one record per line. |
| OrderForm.FlattenAt | src/components/OrderForm.js:51-60 | Record k is exactly: the order's customer, customLabels and deliveryMethod, `completed = false`, and line k's coffeeType, quantity, bagSize and grindSize. There are no other fields. |
| OrderForm.FlattenAppend | src/components/OrderForm.js:51-60 | Flattening maps over the lines in order: flattening a concatenation is the concatenation of the flattenings. |
| OrderForm.FlattenRoundTrip | src/components/OrderForm.js:51-60 | Reading the lines back from the records gives the original lines in order. |
| OrderForm.FlattenAfterAdd | src/components/OrderForm.js:105-118 | Appending a default line appends exactly its record to the flattening. |
| OrderForm.FlattenAfterRemove | src/components/OrderForm.js:120-126 | Flattening after removing line i is the flattening with record i removed. |
| OrderForm.FlattenAfterChange | src/components/OrderForm.js:93-103 | Changing a field of line i changes only record i of the flattening. |
| OrderForm.FlattenExample | src/components/OrderForm.js:51-60 | Jane's two-line Pickup order gives two records with her shared fields, `completed = false` and each line's own fields. |
| OrderForm.OrderDraft.constructor | src/components/OrderForm.js:28-40 | The initial draft: empty customer, no custom labels, empty delivery method, one default line (grind "Whole Bean"). |
| OrderForm.OrderDraft.SetCustomer | src/components/OrderForm.js:148 | Only the customer changes. |
| OrderForm.OrderDraft.SetDeliveryMethod | src/components/OrderForm.js:158 | Only the delivery method changes. |
| OrderForm.OrderDraft.SetCustomLabels | src/components/OrderForm.js:185 | Only the custom-labels flag changes. |
| OrderForm.OrderDraft.ChangeLine | src/components/OrderForm.js:93-103 | Only field `f` of line `index` changes. Other lines and the customer-level fields are unchanged. Only record `index` of the flattening changes. |
| OrderForm.OrderDraft.AddLine | src/components/OrderForm.js:105-118 | Exactly one default line is appended. Existing lines and the customer-level fields are unchanged. The flattening gains exactly the new line's record at its end. |
| OrderForm.OrderDraft.RemoveLine | src/components/OrderForm.js:120-126 | Exactly line `index` is removed and the rest keep their order. For `index > 0`, the only removals the form offers, the first line stays, so at least one line remains. The flattening loses exactly record `index`. |
| OrderForm.OrderDraft.Submit | src/components/OrderForm.js:48-91 | The records sent are the flattening of the draft. When the post does not throw, the draft afterwards equals the initial draft. Otherwise it is unchanged. |

## Left out

- All `fetch` and `axios` calls (catalog load, create, update and delete of coffees, the order post). They are I/O. A submit returns what it would send, and the outcome of the send is a parameter.
- Snackbar notifications and the dialog-open flag. They are display state, and changing them has no effect on the drafts.
- `handleDelete` and `fetchCoffees`. They are network calls with no draft logic.
- src/components/ProductionSheet.js, src/App.js and src/components/Dashboard.js. They only display backend-computed data (a `parseFloat` sort and a floating-point sum) or navigation.
- JavaScript `Number()` coercion of non-numeric or fractional text. A percentage is modelled as empty or an integer.
- Percentages stored as JSON numbers by the backend. A loaded numeric 0 would be falsy in `validateBlend`. The model treats a loaded share as text, so `Num(0)` counts as present.
- CoffeeCatalog.BlendEditor.OpenEdit: an entry without a `components` key leaves `newCoffee.components` undefined in the code. The model stores an empty list. The other keys copied by `...coffee` (such as `id`) are not part of the payload here. They are not shown or edited on this screen.
- CoffeeCatalog.BlendEditor.ChangeComponent: requires an index inside the rows. The code would write past the end of the copied array, but the dialog only calls it with the index of a shown row.
- OrderForm.OrderDraft.ChangeLine: requires an index inside the lines, for the same reason.
- CoffeeCatalog.BlendEditor.Submit and OrderForm.OrderDraft.Submit: each is one atomic step. The code awaits the request before it resets the draft, and the dialog or form stays open meanwhile. Edits made during the send, which the reset throws away, are not modelled.
- `isEditing` and `currentCoffee` are merged into one optional id. After a save the code leaves both set, and so does the model.
- The browser's `required` checks on the order form. They are not code, so no order validation is modelled.
