# NewBill form controller, modelled in Dafny

This project models the new-bill form controller of the Billed expense-report
front end (`src/containers/NewBill.js`). An employee attaches a proof file and
submits a bill. The controller:

- derives the file name from the file input's value (the text after the last `\`);
- derives the extension (the text after the last `.`);
- accepts only `jpg`, `jpeg` and `png`, compared exactly and case-sensitively;
- uploads an accepted file at once with a store `create` call, and on success
  holds the returned `fileUrl`, the key as `billId`, and the derived `fileName`;
- on submit, assembles the bill record (`amount` and `pct` through
  `parseInt`, `pct` falling back to 20), hands it to `updateBill`, and
  navigates to the bills list without waiting.

Modules:

- `Wrappers`: `Option`, standing for `null` and for `NaN`.
- `JsStrings`: `split` on one character, the last array element, and `join`
  as the inverse of `split`.
- `JsNumbers`: `parseInt` without a radix, as in section 19.2.5 of ECMA-262.
  This covers leading white space (section 7.1.4.1), an optional sign, the
  `0x`/`0X` switch to radix 16, and the longest run of digits, with `NaN` when
  that run is empty.
- `Bills`: the `Bill` record, the form values, `parseInt(pct) || 20` and the
  assembly of the record.
- `NewBillForm`: the file-name checks and the class `NewBill`. The class holds
  `fileUrl`, `fileName` and `billId`, the file input's value, and a log of
  effects (store calls and navigations).
- `NewBillScenarios`: client runs of the class that use only its contracts.

The store's promises are explicit events. An accepted change records the
`create` call and keeps the file name its continuation captured, under the
call's index. `ResolveUpload` and `FailUpload` settle that call later, in any
order, so the upload resolved last wins. `ResolveUpdate` and `FailUpdate` do
the same for the `update` call. The session email is a parameter. Whether a
store is configured is a constant of the object.

`NewBill.Valid()` is the invariant every method keeps:

- the three held fields are all unset or all set;
- a held file name is an accepted one;
- every call in flight is a recorded store call of its kind.

Three facts of the code differ from the design description of the bill
lifecycle; the model follows the code:

- The assembled record has no `billId`. The identifier is only the `selector`
  of the update.
- A successful update navigates to the bills list a second time.
- `pct` falls back to 20 not only for an empty or non-numeric field but also
  for one that parses to 0, since 0 is falsy.

A name without a dot is its own extension, so a file named just `png` is
accepted (`AcceptedWithoutDot`).

## Model

| member | source | states |
|---|---|---|
| `JsStrings.Split` | src/containers/NewBill.js:23 | `split` on one character yields at least one piece, and no piece contains the separator |
| `JsStrings.SplitJoin` | src/containers/NewBill.js:23 | joining the pieces of a split with the separator rebuilds the input |
| `JsStrings.JoinSplit` | src/containers/NewBill.js:23 | splitting a join of separator-free pieces gives back those pieces |
| `JsStrings.TextAfterLastUnique` | src/containers/NewBill.js:24 | "the text after the last separator" names exactly one string |
| `JsStrings.LastSplitIsTextAfterLast` | src/containers/NewBill.js:23-24 | the last piece of a split is a separator-free suffix, either the whole input or preceded by the separator |
| `JsStrings.LastSplitWithoutSeparator` | src/containers/NewBill.js:23-24 | with no separator in the input, the last piece is the whole input |
| `NewBillForm.FileNameOf` | src/containers/NewBill.js:23-24 | the derived file name never contains a backslash |
| `NewBillForm.FileNameIsTextAfterLastBackslash` | src/containers/NewBill.js:23-24 | the file name is the text of the input value after its last backslash |
| `NewBillForm.FileNameWithoutBackslash` | src/containers/NewBill.js:23-24 | with no backslash the file name is the whole value, so `/` is not a separator |
| `NewBillForm.FileNameOfFakePath` | src/containers/NewBill.js:23-24 | `C:\fakepath\photo.jpeg` yields `photo.jpeg` |
| `NewBillForm.ExtensionOf` | src/containers/NewBill.js:26 | the extension never contains a dot |
| `NewBillForm.ExtensionIsTextAfterLastDot` | src/containers/NewBill.js:26 | the extension is the text of the name after its last dot |
| `NewBillForm.ExtensionWithoutDot` | src/containers/NewBill.js:26 | a name without a dot is its own extension |
| `NewBillForm.ExtensionOfDotted` | src/containers/NewBill.js:26 | the extension of `base.ext`, for a dot-free `ext`, is `ext` whatever `base` holds |
| `NewBillForm.IsAcceptedName` | src/containers/NewBill.js:28-37 | the definition of the check: the extension of the name is in the allow-list `jpg`, `jpeg`, `png` |
| `NewBillForm.ExtensionCharacterised` | src/containers/NewBill.js:26-37 | the extension is the one and only text after the last dot, so a name is accepted exactly when an allowed extension is the text after its last dot |
| `NewBillForm.AcceptedIffAllowedExtension` | src/containers/NewBill.js:28-37 | `base.ext` is accepted if and only if `ext` is exactly `jpg`, `jpeg` or `png` |
| `NewBillForm.AcceptsPlainSelection` | src/containers/NewBill.js:23-37 | an input value `base.ext` without a backslash passes the check if and only if `ext` is in the allow-list |
| `NewBillForm.AcceptedWithoutDot` | src/containers/NewBill.js:26-37 | a dot-free name is accepted exactly when it is one of the three extensions |
| `NewBillForm.AcceptsImagePng` | src/__tests__/NewBill.js:107-112 | `image.png` is accepted |
| `NewBillForm.RejectsOtherExtensions` | src/__tests__/NewBill.js:71-75 | `file.txt` is rejected, and so is `X.PNG`: matching is case-sensitive |
| `JsNumbers.ParseInt` | src/containers/NewBill.js:69-72 | the definition of `parseInt` with no radix: trim leading white space, take an optional sign, switch to radix 16 on `0x`/`0X`, read the longest digit run, `NaN` if it is empty; its properties are the `ParseInt…` lemmas below |
| `JsNumbers.TrimStart` | src/containers/NewBill.js:69-72 | `parseInt` first drops exactly the leading white-space characters: the rest is a suffix with no white space at its head |
| `JsNumbers.DigitRun` | src/containers/NewBill.js:69-72 | `parseInt` reads the longest prefix of digits of the radix |
| `JsNumbers.DigitValue` | src/containers/NewBill.js:69-72 | a character's digit value is at most 36, 36 meaning "no digit" |
| `JsNumbers.DecimalDigit` | src/containers/NewBill.js:69-72 | the numeral character of a digit is a decimal digit of that value |
| `JsNumbers.DecimalString` | src/containers/NewBill.js:69-72 | the canonical numeral of `n` is made of decimal digits, starts with `0` only for zero, and has value `n` |
| `JsNumbers.DigitRunOfDigits` | src/containers/NewBill.js:69-72 | the digit run of `d + t` is `d` when `t` cannot continue it |
| `JsNumbers.TrimStartSkips` | src/containers/NewBill.js:69-72 | any leading white space is dropped by the trim |
| `JsNumbers.ParseIntSkipsLeadingWhiteSpace` | src/containers/NewBill.js:69-72 | leading white space does not change the result of `parseInt` |
| `JsNumbers.ParseUnsignedOfNumeral` | src/containers/NewBill.js:69-72 | the unsigned numeral of `n`, followed by text that cannot continue it, reads back as `n` |
| `JsNumbers.ParseIntPlus` | src/containers/NewBill.js:69-72 | a leading `+` is skipped: the number read after it is the result |
| `JsNumbers.UnsignedOfDigits` | src/containers/NewBill.js:69-72 | any non-empty decimal digit run, leading zeros included, is read for its value up to the first non-digit |
| `JsNumbers.ParseIntDecimal` | src/containers/NewBill.js:69-72 | a decimal digit run after any white space and no sign, `+` or `-` is read for its value, negated after `-` |
| `JsNumbers.ParseIntNegative` | src/containers/NewBill.js:69-72 | a leading `-` negates the number read after it |
| `JsNumbers.ParseIntOfNumeral` | src/containers/NewBill.js:69-72 | `parseInt` of the numeral of any integer `i`, followed by text that cannot continue it, is `i` |
| `JsNumbers.ParseIntNotANumber` | src/containers/NewBill.js:69-72 | an empty string, or one starting with no sign, digit or white space, gives `NaN` |
| `JsNumbers.ParseIntNeedsDigit` | src/containers/NewBill.js:69-72 | a number comes out only when a decimal digit follows the white space and the optional sign |
| `JsNumbers.ParseIntHexNumeral` | src/containers/NewBill.js:69-72 | after a `0x` prefix the run of hexadecimal digits is read in radix 16, up to the first character that is none |
| `JsNumbers.ParseIntBareHexPrefix` | src/containers/NewBill.js:69-72 | `0X` with no hexadecimal digit after it gives `NaN` |
| `Bills.Truthy` | src/containers/NewBill.js:72 | the definition of JavaScript truthiness of a number: only `NaN` and 0 are falsy |
| `Bills.Pct` | src/containers/NewBill.js:72 | `pct` is never 0; it is the parsed number when that is truthy and 20 otherwise (`NaN` or 0) |
| `Bills.PctOfNumeral` | src/containers/NewBill.js:72 | the numeral of a non-zero `i` gives `i`; the numeral `0` gives 20 |
| `Bills.PctOfNonNumeric` | src/containers/NewBill.js:72 | a field with no decimal digit after its white space and optional sign (empty, blank, `-`, `+x`, `abc`) gives 20 |
| `Bills.PctOfSignedAndPadded` | src/containers/NewBill.js:72 | `+20` gives 20 and `05` gives 5 |
| `Bills.AssembleBill` | src/containers/NewBill.js:65-77 | the bill is `pending` with the session email; type, name, date, vat and commentary are kept verbatim; amount is `parseInt` of its field with no default; pct is the parsed field when that is truthy and 20 otherwise; fileUrl and fileName are copied from the held state, possibly null |
| `Bills.AssembleBillScenario` | src/containers/NewBill.js:65-77 | amount `300` and an empty pct give amount 300 and pct 20 |
| `NewBillForm.NavigationCountAppend` | src/containers/NewBill.js:78-79 | navigations of two logs in sequence add up |
| `NewBillForm.NewBill.constructor` | src/containers/NewBill.js:5-15 | `fileUrl`, `fileName` and `billId` start null, no effect has happened, and the invariant holds |
| `NewBillForm.NewBill.HandleChangeFile` | src/containers/NewBill.js:19-59 | a rejected name clears the input and issues no call. An accepted one, with a store, issues exactly one `create` with the file and the email and records the derived name for its continuation. Held fields are never changed here |
| `NewBillForm.NewBill.ResolveUpload` | src/containers/NewBill.js:46-50 | a resolved create sets `billId` to the key, `fileUrl` to the url and `fileName` to the name derived at change time, all together, whatever was held before |
| `NewBillForm.NewBill.FailUpload` | src/containers/NewBill.js:51 | a failed create changes nothing but the set of calls in flight |
| `NewBillForm.NewBill.HandleSubmit` | src/containers/NewBill.js:61-80 | the bill is assembled from the held state; held fields are unchanged; the log gains the update call (only with a store) and then exactly one navigation to the bills list |
| `NewBillForm.NewBill.UpdateBill` | src/containers/NewBill.js:83-93 | without a store nothing happens; with one, exactly one `update` with the bill and `selector` equal to the held `billId` |
| `NewBillForm.NewBill.ResolveUpdate` | src/containers/NewBill.js:88-90 | a successful update adds exactly one more navigation to the bills list |
| `NewBillForm.NewBill.FailUpdate` | src/containers/NewBill.js:91 | a failed update adds no effect |
| `NewBillScenarios.UploadThenSubmit` | src/containers/NewBill.js:37-89 | select an accepted file, then resolve the upload, then submit: one create, then one update selecting the returned key, then one navigation, and the bill carries the uploaded file |
| `NewBillScenarios.SelectPdf` | src/containers/NewBill.js:54-57 | `doc.pdf` is rejected, the input value becomes empty, and no call is issued |
| `NewBillScenarios.RacingUploads` | src/containers/NewBill.js:46-50 | of two uploads in flight, the one resolved last determines the held name, url and identifier |
| `NewBillScenarios.SubmitWithoutStore` | src/containers/NewBill.js:78-84 | without a store, submit issues no update and navigates exactly once |
| `NewBillScenarios.FailedUpdate` | src/containers/NewBill.js:78-91 | submit followed by a failed update: one navigation in all |
| `NewBillScenarios.SucceededUpdate` | src/containers/NewBill.js:78-90 | submit followed by a successful update: two navigations in all |

The proof helpers `JsNumbers.TrimStartNoWhiteSpace`, `JsNumbers.ParseIntUnsigned`,
`JsNumbers.NegativeNumeral` and `NewBillForm.NavigationCountSnoc` carry
single proof steps (an unchanged trim, the unsigned case of the sign, the
numeral of a negative integer, the navigation count of one more effect) and
model nothing of their own.

## Left out

- The DOM is not modelled: `querySelector`, `addEventListener`,
  `preventDefault`, `FormData` and the `Logout` construction. Form fields and
  the input value are plain strings. The selected `File` is only passed on to
  the store, so a string stands for it (`FileObject`).
- `HandleChangeFile` gets the input's value as `selected`, the value the
  browser set before firing the change event. The model stores it in
  `inputValue`, then clears it on rejection.
- Console logging is left out; it is the only trace of a rejection or a
  failed call.
- `localStorage` and `JSON.parse` of the session are left out. The email is a
  parameter, so the crash on a missing user is not modelled. Neither is the
  fact that the change handler reads the session even for a rejected file.
- `JSON.stringify` of the bill is left out: the update call records the
  `Bill` value itself.
- Promises and scheduling are left out. A settle event may come at any time,
  but at most once per call: the resolve and fail methods require the call to
  be in flight.
- The store's `create` answer is taken to carry string `fileUrl` and `key`.
- `ROUTES_PATH['Bills']` is the single route `BillsPath`. `src/constants/routes.js`
  is not part of this model.
- With no store, an accepted change throws a `TypeError` at
  `this.store.bills()`. The model returns `StoreMissing` and changes nothing
  but the input value, which the browser had already set.
- `JsNumbers.ParseInt`: returns a mathematical integer. It does not model the
  rounding of numerals beyond 2^53 to the nearest double, and `-0` is 0.
  Neither changes the `|| 20` choice, since `-0` and `0` are both falsy.
- The bills list container (`getBills` ordering and date formatting, the eye
  icon, the new-bill button) is not modelled. `src/containers/Bills.js` is not
  part of this model, and its test sorts with a comparator that always
  returns `+1`, so it states no order.
- The test files are Jest harnesses. They are used here only as scenarios.
