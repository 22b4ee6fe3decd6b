# GISMaskHelper in Dafny

A model of the input-mask helper in `js/GISMaskHelper.js`. The helper edits
GIS coordinates (degrees, DMS, grid references) typed into one text field.
The field's mask and placeholder are split at a delimiter into areas, for
example `d°` and `d'` for degrees and minutes. Each area has its own value
string, and one shared cursor (`valueOffsetCurrent`) moves through the active
area.

Four parts of the helper are modelled:

- **`addRange`**: expands an `a..b` range into the key list.
- **`initialize`**: compiles each area's mask into four tables:
  - character rules (`valuesRange`), from `[...]` groups and the escapes `\A \a \i \u \!`;
  - per-area ignore keys (`ignoreRange`), from `![...]`;
  - per-area delimiter keys (`delimiterRange`), from `*[...]`;
  - value and length rules (`maxValueRange`), from `{...}`.

  It then sets the initial cursor to the first `d` of the active area's placeholder.
- **`processKeyInput`**: the key handler. It runs these stages in order:
  - ignored keys;
  - Backspace/Delete restore;
  - `+`/`-` sign writes with N/S/E/W propagation;
  - rule-driven writes at the cursor;
  - sign reconciliation;
  - the numeric fast path;
  - right-justification on a delimiter key;
  - value/length validation;
  - auto-advance.
- **`selectInputArea`**: maps a caret position to an area and its selection.

The model has three layers:

- **Specification functions.**
  - `MaskRules` covers the compiler.
  - `KeyReducer` covers the key handler, one function per stage, with `KeyStep` for a whole key.
  - `AreaSelection` covers the caret arithmetic.
  - `JsText` holds the JavaScript built-ins they rely on: `split`/`join` with holes as empty strings, writes past the end of an array, `slice`, `parseInt` (NaN as `None`), `String(n)` and `toUpperCase` on ASCII.
- **The imperative layer.** It takes the source's own form:
  - `MaskHelper.GISMaskHelper` is a class whose fields are the object's properties, with the constructor, `Initialize`, `ProcessKeyInput` and `SelectInputArea`;
  - `CompilerLoops` and `KeyLoops` hold the inner loops.

  Every method is proved to compute the specification function.
- **Properties.** `CompilerFacts`, `ReducerFacts`, `AreaSelection` and `HelperFacts` prove properties of the functions. `KeyExamples` works concrete masks and keys through them.

Behaviour the model keeps exactly as the code has it:

- A length rule written `{l...}` without `|` stores a number. The key handler then calls `indexOf` on that number, which raises a TypeError. This is modelled as the outcome `Raised`: cursor moves made before it persist; cells and error are not stored.
- An `a..b` range at the end of a mask raises inside `addRange`. The compile then stops, keeping the tables of the tokens before it.
- Other oddities of the code:
  - inside a `[...]` group, the `!` that opens the ignore part is itself an ignore key (`CompilerFacts.ScanBracketBody`);
  - `\i` and `\u` both set `ignoreCase` (js/GISMaskHelper.js:467-475), so both write keys upper-cased (:230); the `convertUpper` flag that `\u` also sets is never read, since the writer reads `upperCase`, which no token sets;
  - the lower bound of a value rule is always 0: `minValue` starts at 0, so the branch that would read it from a second `*` (:560) never runs;
  - a `{...}` that reaches a `*` before any digit (`{v*2*59}`) takes NaN as its length, so the rule has no span and never reports (`KeyExamples.LeadingStarLosesSpan`);
  - in the Backspace scan, the sign-skip flag is never cleared;
  - an unterminated `[` moves the offset by one, and the scan resumes at the character after the `[`, so the group's body is read again as ordinary tokens;
  - an unterminated `![`, `*[` or `{` consumes only its opening character; the rest is read again as ordinary tokens;
  - for a delimiter longer than one character, a selection starts `|delimiter| - 1` characters into the area (`AreaSelection.SelectAreaSpec`).

Where the source's own comments describe something other than what its code does, the model follows the code:

- :275 says a delimiter key left-fills the digits with 0 up to the next delimiter position, and :285 says it scans back for `d`. The code scans forward from position 0 and justifies one run of digits followed by `d` slots:
  - digits after a `d` are left alone: `d5` followed by a space stays (`ReducerFacts.SlotBeforeDigitStays`);
  - digits before a literal that is not a delimiter character join the next run, which overwrites the literal (`ReducerFacts.MergesAcrossLiteral`);
  - the position of a `d` is never forgotten, so a `d` in an earlier field stops every later run (`ReducerFacts.StaleSlotStops`);
  - a `_` inside the run leaves an empty (`undefined`) cell, so the joined text gets shorter (`ReducerFacts.ShortShiftEmptiesCell`).
- :116 says Backspace deletes from the end of the value. The code restores the position just before the cursor, or the nearest editable one below it (`ReducerFacts.DeleteBounds`).
- :123 says Backspace validates the offset. The code runs no value or length check on Backspace; it only clears the error.
- :101 asks whether Enter should call back. It does not: Enter changes nothing (`ReducerFacts.EnterNoOp`).
- :320 says entry is validated against a minimum and maximum. The minimum is always 0, and the auto-advance at :356 runs after a failed check as well.
- :580 says this sets the start offset. That block runs inside the area loop, so it runs again after every area, each time for the active area's placeholder. Its `_` branch assigns to the rule object being visited (`this` inside `$.each`), not to the helper, so the cursor ends on the first `d` of that placeholder, or -1.

## Specification functions

Each function below models the lines cited. What it means is stated by the lemmas and methods named after it, which have rows in the table under "## Model".

- `MaskRules.Token` (js/GISMaskHelper.js:409-577), one token: `CompilerFacts.TokenCharRule`, `BracketToken`, `EscapeToken`, `KeyListToken`, `BraceToken`, `TokenKeepsOrder`.
- `MaskRules.ScanBracket` (:420-447): `CompilerFacts.ScanBracketKeys`, `ScanBracketIgnore`, `ScanBracketBody`, `CompilerLoops.ReadBracket`.
- `MaskRules.ScanBrace` (:526-573): `KeyExamples.MinutesBrace`, `LeadingStarLosesSpan`, `CompilerLoops.ReadBrace`.
- `MaskRules.BraceRule` (:527-551) and `MaskRules.EscapeRule` (:450-482): `CompilerFacts.BraceToken`, `EscapeToken`, `KeyExamples.MinutesBraceRule`.
- `MaskRules.ScanArea`, `CompileAreas` and `Compile` (:400-578): `CompilerFacts.ScanAreaKeepsOrder`, `CompileAreasKeepsOrder`, `CompileOrdered`, `MaskHelper.GISMaskHelper.Initialize`.
- `KeyReducer.Delete` (:117-158): `ReducerFacts.DeleteBounds`, `DeleteScanOutcome`, `KeyLoops.DeleteBack`.
- `KeyReducer.SignWrite` and `SignPropagate` (:179-204): `ReducerFacts.SignWriteSpec`, `SignPropagateSpec`, `SignKeyRealigns`.
- `KeyReducer.RuleKey` (:209-241): `ReducerFacts.RuleKeyRefused`, `RefusedKeyNoOp`, `RuleKeyWritesAtCursor`, `RuleKeyPassesOn`.
- `KeyReducer.Reconcile` (:243-257): `ReducerFacts.ReconcileSpec`.
- `KeyReducer.FastPath` (:260-271): `ReducerFacts.FastPathFillsFirstSlot`, `ErrorKindsAndFastPath`.
- `KeyReducer.ConsolidateScan` and `Justify` (:283-318): `ReducerFacts.JustifySpec`, `ConsolidateSpan`, `ConsolidateRun` and the examples after them.
- `KeyReducer.Check` and `Validate` (:320-349): `ReducerFacts.ValidatePassBefore`, `CheckTiming`, `ValueRuleOnDigits`, `LengthRuleCounts`.
- `KeyReducer.TypedKey`, `Reduce` and `KeyStep` (:105-366): `ReducerFacts.TypedKeyKeepsCount`, `KeyStepIsolation`, `RulelessDigit`, `MaskHelper.GISMaskHelper.ProcessKeyInput`.

## Model

| member | source | states |
|---|---|---|
| JsText.SplitJoin | js/GISMaskHelper.js:53-54 | joining the areas of a split with the same delimiter gives the text back |
| JsText.ConcatChars | js/GISMaskHelper.js:105 | splitting a value into one-character cells and joining them again gives the value back |
| JsText.ParseIntDigits | js/GISMaskHelper.js:334 | `parseInt` of a non-empty string of decimal digits is its decimal value |
| JsText.ConcatDigitCells | js/GISMaskHelper.js:334 | joining one-digit cells gives a string of as many digits |
| MaskRules.ScanKeyList | js/GISMaskHelper.js:489-498 | a `![...]`/`*[...]` list closes at the first `]` after it and holds exactly the characters before it; with no `]` it stays open |
| MaskRules.FirstDigitSlot | js/GISMaskHelper.js:580-602 | the initial cursor is the position of the first `d` of the placeholder, or -1 exactly when there is none |
| CompilerFacts.AddCodesSpec | js/GISMaskHelper.js:24-29 | `addRange` keeps the list as a prefix, appends exactly the range's characters the list lacked in increasing order, and never creates a duplicate |
| CompilerFacts.AddRangeSpec | js/GISMaskHelper.js:21-32 | the same stated on the two range characters: membership after is membership before or inside the range |
| CompilerFacts.AddCodesContents | js/GISMaskHelper.js:24-29 | the push loop keeps the list as a prefix and appends exactly the range's characters the list lacked |
| CompilerFacts.AddCodesIncreasing | js/GISMaskHelper.js:24-29 | the characters the push loop appends come in increasing code order |
| CompilerFacts.TokenCharRule | js/GISMaskHelper.js:409-482 | a token adds at most one character rule; when it does, the token is `[` or `\`, the rule carries the current index, area and offset, and both counters move on by one |
| CompilerFacts.BracketToken | js/GISMaskHelper.js:409-449 | a closed `[...]` appends exactly one rule, built from the group's keys, ignore keys and sign flag at the current index, area and offset, and the scan resumes after the `]` with both counters one higher; an unclosed one moves only the offset and resumes at the next character; a range missing its upper end raises |
| CompilerFacts.ScanBracketKeys | js/GISMaskHelper.js:420-447 | before any `!`, each character of a group is a key, except `^`, which marks a sign slot |
| CompilerFacts.ScanBracketIgnore | js/GISMaskHelper.js:427-434 | once the ignore part is open, every character up to the `]` is an ignore key, the `!` included |
| CompilerFacts.ScanBracketBody | js/GISMaskHelper.js:420-447 | a group `[keys!ignored]` without ranges closes at its `]` with the keys before the `!` (less `^`), the `!` and what follows as ignore keys, and the sign flag set exactly when `^` occurs among the keys |
| CompilerFacts.EscapeToken | js/GISMaskHelper.js:450-482 | an escape always moves the offset by one and skips two characters; only `\A \a \i \u \!` add a rule and consume an index |
| CompilerFacts.KeyListToken | js/GISMaskHelper.js:483-514 | `![...]` and `*[...]` move neither counter and add no rule; a closed one sets the area's ignore or delimiter keys to the characters between the brackets |
| CompilerFacts.BraceToken | js/GISMaskHelper.js:515-573 | a closed `{...}` consumes one index and no offset, and its rule's span ends at the current offset (offset = current offset − length) |
| CompilerFacts.TokenKeepsOrder | js/GISMaskHelper.js:409-577 | every token keeps the tables ordered by key, with all keys below the index counter and every rule of the area below the offset counter |
| CompilerFacts.ScanAreaKeepsOrder | js/GISMaskHelper.js:407-578 | scanning a whole area keeps that order and never lowers the index |
| CompilerFacts.CompileAreasKeepsOrder | js/GISMaskHelper.js:402-578 | scanning the remaining areas keeps the order, and every rule belongs to an existing area |
| CompilerFacts.CompileAreasFinish | js/GISMaskHelper.js:402-578 | the scan of the remaining areas finishes at least the areas it started from, at most all of them, and succeeds exactly when it finishes all of them |
| CompilerFacts.CompileOrdered | js/GISMaskHelper.js:400-578 | the compiled tables are ordered by key, so enumerating them by key visits them in the order they were filled; success means every area was scanned |
| CompilerFacts.CompiledOffsetsDistinct | js/GISMaskHelper.js:409-482 | two character rules of the same area never share an offset |
| CompilerLoops.AddRangeTo | js/GISMaskHelper.js:21-32 | the push loop computes `AddRange` |
| CompilerLoops.ReadBracket | js/GISMaskHelper.js:420-447 | the `k` loop over a `[...]` group computes `ScanBracket`, including the raise on a range missing its upper end |
| CompilerLoops.ReadKeyList | js/GISMaskHelper.js:489-498 | the `k` loop over a key list computes `ScanKeyList` |
| CompilerLoops.ReadBrace | js/GISMaskHelper.js:526-573 | the `k` loop over a `{...}` rule computes `ScanBrace` |
| CompilerLoops.FindFirstDigit | js/GISMaskHelper.js:580-602 | the search over the active placeholder computes `FirstDigitSlot` |
| CompilerLoops.FirstDigitAt | js/GISMaskHelper.js:580-602 | a `d` with no `d` before it is the initial cursor |
| KeyReducer.OfArea | js/GISMaskHelper.js:124-128 | the restricted table (of character rules, or of value rules at :321-326) holds exactly the rules of the active area |
| KeyReducer.RuleAt | js/GISMaskHelper.js:129-136 | the rule found governs the offset asked for; none found means no rule governs it |
| KeyReducer.Advance | js/GISMaskHelper.js:357-363 | auto-advance never moves back, skips only positions whose placeholder is not `_` or `d`, and stops on one that is or at the end |
| KeyLoops.CollectArea | js/GISMaskHelper.js:124-128 | the copying loop (here, and at :321-326 for value rules) computes `OfArea` |
| KeyLoops.DeleteBack | js/GISMaskHelper.js:129-158 | the two Backspace loops compute `Delete` |
| KeyLoops.FindSignRule | js/GISMaskHelper.js:144-149 | the inner loop of the backward scan reports exactly whether a sign rule governs the position |
| KeyLoops.WriteSign | js/GISMaskHelper.js:179-185 | the first sign loop computes `SignWrite` |
| KeyLoops.PropagateSign | js/GISMaskHelper.js:186-204 | the second sign loop computes `SignPropagate` |
| KeyLoops.ApplyRules | js/GISMaskHelper.js:209-241 | the rule loop with its early exits computes `RuleKey` |
| KeyLoops.ReconcileSigns | js/GISMaskHelper.js:243-257 | the reconciliation loop computes `Reconcile` |
| KeyLoops.ApplyKey | js/GISMaskHelper.js:178-258 | the rule stage computes `SignKey` for "+"/"-" and `OtherKey` otherwise |
| KeyLoops.ConsolidateDigits | js/GISMaskHelper.js:283-318 | the delimiter scan and its justification loop compute `ConsolidateScan` |
| KeyLoops.ValidateRules | js/GISMaskHelper.js:328-349 | the validation loop computes `Validate` |
| KeyLoops.SkipLiterals | js/GISMaskHelper.js:357-363 | the auto-advance loop computes `Advance` |
| KeyLoops.TypeKey | js/GISMaskHelper.js:168-363 | the stages for a typed key compute `TypedKey` |
| ReducerFacts.IgnoredKeyNoOp | js/GISMaskHelper.js:110-114 | a key in the area's ignore list leaves values, area, cursor and error unchanged |
| ReducerFacts.EnterNoOp | js/GISMaskHelper.js:102-103 | Enter leaves the whole state unchanged |
| ReducerFacts.RuleKeyRefused | js/GISMaskHelper.js:209-241 | when the first rule at the cursor refuses the key, the rule loop exits |
| ReducerFacts.RefusedKeyNoOp | js/GISMaskHelper.js:209-241 | a digit the non-sign rule at the cursor does not list, or a key among its ignore keys, leaves the state unchanged |
| ReducerFacts.LastSlot | js/GISMaskHelper.js:139-158 | the position found is the nearest editable placeholder position at or below the start, or -1 when there is none |
| ReducerFacts.DeleteScanSkipping | js/GISMaskHelper.js:139-158 | once the sign-skip flag is set, the backward scan restores nothing and keeps the cursor |
| ReducerFacts.DeleteScanOutcome | js/GISMaskHelper.js:139-158 | the backward scan restores the nearest editable position below the cursor unless a sign rule governs it, in which case nothing changes |
| ReducerFacts.DeleteBounds | js/GISMaskHelper.js:117-158 | Backspace never raises the cursor; at most the position it lands on changes, and it gets its placeholder character back; with a rule just before the cursor, that position is restored and the cursor drops by exactly one; otherwise the nearest editable position below is restored unless a sign rule governs it |
| ReducerFacts.DeleteKeyStep | js/GISMaskHelper.js:117-165 | Backspace/Delete clear the error, never raise the cursor, and leave the other areas alone |
| ReducerFacts.SignWriteSpec | js/GISMaskHelper.js:179-185 | every rule listing the key receives it, nothing else changes, and the sign flag is that of the last rule listing the key |
| ReducerFacts.SignPropagateSpec | js/GISMaskHelper.js:186-204 | every sign rule that does not list the key but has a letter for it takes that letter, and nothing else changes |
| ReducerFacts.SignKeyRealigns | js/GISMaskHelper.js:178-205 | "+"/"-" reaches every rule listing it; if the last such rule is a sign rule, the other sign rules take S (else W) or N (else E); positions no rule governs keep their value and the cursor stays |
| ReducerFacts.RuleKeyWritesAtCursor | js/GISMaskHelper.js:215-236 | a non-sign rule at the cursor that lists the key (and does not ignore it) writes it there, upper-cased for `ignoreCase`, and the cursor moves on by one |
| ReducerFacts.RuleKeyPassesOn | js/GISMaskHelper.js:209-238 | with no rule at the cursor and no sign rule listing the key, the rules leave everything to the fast path |
| ReducerFacts.ReconcileSpec | js/GISMaskHelper.js:243-257 | after a sign letter, the rules that do not list it take "-" (for S, W) or "+" (for N, E) when they list that symbol, and nothing else changes |
| ReducerFacts.FastPathFillsFirstSlot | js/GISMaskHelper.js:260-271 | a digit no rule took, with no value error pending, replaces the first `d` and moves the cursor on by one |
| ReducerFacts.ErrorKindsAndFastPath | js/GISMaskHelper.js:261-262 | a pending value error blocks the fast path entirely; a pending length error does not |
| ReducerFacts.JustifySpec | js/GISMaskHelper.js:300-313 | in closed form, positions up to the zero bound become "0" (each moving the cursor), the following ones take the collected digits in order |
| ReducerFacts.ScanNoRun | js/GISMaskHelper.js:287-317 | cells that are neither digits nor `d` leave the scan state untouched |
| ReducerFacts.ScanDigitRun | js/GISMaskHelper.js:287-295 | a run of digits is collected in order, from its first position |
| ReducerFacts.ScanSlotRun | js/GISMaskHelper.js:296-298 | a run of `d` slots moves the end and counts the slots |
| ReducerFacts.PrefixPending | js/GISMaskHelper.js:287-312 | while no `d` has been seen, a delimiter character drops the digits collected so far, so the scan reaches the position after it with nothing pending |
| ReducerFacts.PrefixAbandons | js/GISMaskHelper.js:287-312 | complete fields (no `d`) ending in a delimiter character are abandoned: the scan from the start equals a fresh scan after them |
| ReducerFacts.ScanToDelimiter | js/GISMaskHelper.js:283-318 | after complete fields ending in a delimiter character (or none), digits then `d` slots then a delimiter character lead to justifying exactly that run |
| ReducerFacts.ConsolidateSpan | js/GISMaskHelper.js:283-318 | after complete fields ending in a delimiter character (or none), k digits then m `d` slots ending at a delimiter character become m zeros then the k digits, the cursor rises by m, everything else stays |
| ReducerFacts.JustifyRun | js/GISMaskHelper.js:300-313 | justifying k digits followed by m slots puts m zeros first, then the digits, and moves the cursor on by m |
| ReducerFacts.ConsolidateRun | js/GISMaskHelper.js:283-318 | the same on the pieces of the value: with pre empty or complete fields ending in a delimiter character, pre + digits + m `d` + delimiter + post becomes pre + m zeros + digits + delimiter + post |
| ReducerFacts.MergesAcrossLiteral | js/GISMaskHelper.js:287-313 | `12°3d` and a space become `0123`, an empty cell and the space: digits before a literal that is not a delimiter character join the next run |
| ReducerFacts.StaleSlotStops | js/GISMaskHelper.js:287-317 | `d 7 3d` and a space stay as they are: the `d` of the first field is still remembered at the second space |
| ReducerFacts.SlotBeforeDigitStays | js/GISMaskHelper.js:287-313 | `d5` before a delimiter is left as it is: a `d` before the digits does not start a run |
| ReducerFacts.ShortShiftEmptiesCell | js/GISMaskHelper.js:300-313 | a `_` inside the run leaves a position with no digit to take, which becomes `undefined` |
| ReducerFacts.ValidatePassBefore | js/GISMaskHelper.js:328-349 | validation passes exactly when every rule passes; otherwise it reports the verdict of the first rule that does not |
| ReducerFacts.CheckTiming | js/GISMaskHelper.js:330-341 | a value rule is consulted only when the cursor equals its key and never while its span holds a `d`; a length rule only when offset < cursor ≤ key |
| ReducerFacts.ValueRuleOnDigits | js/GISMaskHelper.js:330-338 | on a span of digits, a value rule fails with "error value; offset o/ length l" exactly when the number exceeds its maximum |
| ReducerFacts.LengthRuleCounts | js/GISMaskHelper.js:340-347 | a length rule passes exactly when the count of non-`d` characters of its span, in decimal, is listed, and otherwise fails with "error length; …" |
| ReducerFacts.SignWriteKeepsCount | js/GISMaskHelper.js:179-185 | with every rule inside the value, the sign writes keep its length |
| ReducerFacts.SignPropagateKeepsCount | js/GISMaskHelper.js:186-204 | the same for the sign propagation |
| ReducerFacts.RuleKeyKeepsCount | js/GISMaskHelper.js:209-237 | the same for the rule loop |
| ReducerFacts.ReconcileKeepsCount | js/GISMaskHelper.js:243-257 | the same for the reconciliation |
| ReducerFacts.TypedKeyKeepsCount | js/GISMaskHelper.js:168-318 | with every rule of the area inside the value, a typed key keeps the value's length |
| ReducerFacts.KeyStepIsolation | js/GISMaskHelper.js:105-366 | a key changes at most the active area's value; the other areas and the area choice stay |
| ReducerFacts.AdvanceIdempotent | js/GISMaskHelper.js:357-363 | auto-advance stops on a position it would not move from |
| ReducerFacts.RulelessDigit | js/GISMaskHelper.js:260-271 | in an area without rules, a digit fills the first `d`, clears the error, and the cursor moves on by one and then over literal positions |
| AreaSelection.PrefixMonotone | js/GISMaskHelper.js:80-82 | the accumulated placeholder length never decreases from area to area |
| AreaSelection.PrefixLocatesArea | js/GISMaskHelper.js:80-82 | area i starts at the accumulated length of the areas before it in the joined placeholder, and the joined text plus one delimiter is the final accumulated length |
| AreaSelection.PrefixShift | js/GISMaskHelper.js:80-82 | dropping the first area shifts every accumulated length by that area and a delimiter |
| AreaSelection.SelectFromSpec | js/GISMaskHelper.js:78-94 | the search from area i finds the first area whose text and delimiter reach past the caret, with its selection bounds |
| AreaSelection.SelectAreaSpec | js/GISMaskHelper.js:78-94 | a caret selects an area exactly when it lies before the joined placeholder plus one delimiter; the area's text, with its delimiter, contains the caret; the selection ends where the area's text ends and starts at 0 or `|delimiter| - 1` past the area's start |
| HelperFacts.AreaRulesDistinct | js/GISMaskHelper.js:124-128 | restricting a table whose same-area rules never share an offset to one area keeps the offsets distinct |
| HelperFacts.CompiledAreaRulesDistinct | js/GISMaskHelper.js:409-482 | the compiled rules of any one area sit at distinct offsets, as the sign realignment needs |
| MaskHelper.GISMaskHelper.constructor | js/GISMaskHelper.js:35-60 | mask and placeholder are split at the delimiter, every area's value is its placeholder, the tables are empty and the cursor is -1 |
| MaskHelper.GISMaskHelper.Initialize | js/GISMaskHelper.js:400-603 | the tables are the compiled tables and `ok` the compile's success; once an area finished, both cursor fields are the first `d` of the active placeholder, else unchanged; nothing else changes |
| MaskHelper.GISMaskHelper.ScanMask | js/GISMaskHelper.js:407-578 | the token loop of one area leaves the tables and the index counter as `ScanArea` describes |
| MaskHelper.GISMaskHelper.ScanToken | js/GISMaskHelper.js:409-577 | one token updates the tables and counters as `Token` describes, and a raising token stores nothing |
| MaskHelper.GISMaskHelper.ProcessKeyInput | js/GISMaskHelper.js:98-374 | the values, area, cursor and error after a key are those `KeyStep` gives, `raised` reports the TypeError case, and the tables and selection stay |
| MaskHelper.GISMaskHelper.SelectInputArea | js/GISMaskHelper.js:78-94 | the area and selection become those `SelectArea` gives, or stay when the caret is past every area |
| KeyExamples.LiteralMaskHasNoRules | js/GISMaskHelper.js:574-577 | a mask of literals (`dd`) compiles to empty tables |
| KeyExamples.FirstDigitExample | js/GISMaskHelper.js:260-271 | in a rule-free area `dd`, "3" gives `3d` with the cursor at 1 |
| KeyExamples.SecondDigitExample | js/GISMaskHelper.js:260-271 | then "7" gives `37` with the cursor at 2 |
| KeyExamples.DigitFastPathExample | js/GISMaskHelper.js:580-602 | from the compiled mask `dd` and the initial cursor, "3" then "7" give `37` |
| KeyExamples.MinutesNumbers | js/GISMaskHelper.js:532 | `parseInt` reads "2" as 2 and "59" as 59 |
| KeyExamples.MinutesTail | js/GISMaskHelper.js:526-573 | after the `*` of `dd{v2*59}`, the digits up to the `}` are collected as "59" |
| KeyExamples.MinutesStar | js/GISMaskHelper.js:555-563 | at the `*`, the "2" collected so far becomes the length and the collected text is cleared |
| KeyExamples.MinutesHead | js/GISMaskHelper.js:555-572 | before the `*`, `v` makes it a value rule and the `2` read at the `*` is its length |
| KeyExamples.MinutesBrace | js/GISMaskHelper.js:526-573 | the body `v2*59}` closes at position 8 as a value rule of length 2 whose bound text is "59" |
| KeyExamples.MinutesBraceRule | js/GISMaskHelper.js:527-551 | stored at area offset 2 with index 2, that body looks at offsets 0 and 1 and allows at most 59 |
| KeyExamples.MinutesRuleCompiles | js/GISMaskHelper.js:515-577 | the mask `dd{v2*59}` compiles to exactly that one value rule and no other table entry |
| KeyExamples.LeadingStarLosesSpan | js/GISMaskHelper.js:555-559 | in `{v*2*59}` the length is read at the first `*` before any digit, so it is NaN, the rule has no span, and it always passes |
| KeyExamples.MinutesMessage | js/GISMaskHelper.js:336 | the message of that rule is "error value; offset 0/ length 2" |
| KeyExamples.MinutesRuleRefuses | js/GISMaskHelper.js:330-338 | "61" fails with "error value; offset 0/ length 2" |
| KeyExamples.MinutesRuleAccepts | js/GISMaskHelper.js:330-338 | "59" passes |
| KeyExamples.MinutesRuleWaits | js/GISMaskHelper.js:333 | a span still holding `d` is not checked |
| KeyExamples.LaterFieldJustified | js/GISMaskHelper.js:283-318 | `12 7d` and a space become `12 07`: a later field is justified once the fields before it are complete |
| KeyExamples.MinusSetsSouth | js/GISMaskHelper.js:178-205 | in the sign group `[^+-][^NS]`, "-" gives `-S` |
| KeyExamples.SouthSetsMinus | js/GISMaskHelper.js:209-257 | in the same group, "S" typed at the letter gives `-S` |
| KeyExamples.SignMaskCompiles | js/GISMaskHelper.js:409-449 | the mask `[^+-][^NS]` compiles to exactly those two sign rules |

## Left out

- DOM and jQuery glue is not modelled: writing the field's text, the event bindings, and writing the selection back to the element. These are user-interface output.
- The caret position is a parameter of `SelectInputArea`, because it comes from the DOM.
- `console.log` at the end of `initialize` is debugging output.
- The error `callback` is a call into code the helper does not own. The model keeps the error string it would receive, in `errorMessage`.
- The `Enter` branch reads the field's text and discards it. It is modelled as a key that changes nothing.
- `setValue` has an empty body and `getValue` only returns `value`.
- The constructor branch without a delimiter nests the placeholder array inside `value`, so the key handler cannot use it. Only the delimited constructor is modelled.
- MaskHelper.GISMaskHelper.constructor: requires the mask and the placeholder to split into the same number of areas (at least one). With different counts, `value` or `placeholder` has `undefined` areas, and the key handler fails on them.
- MaskHelper.GISMaskHelper.Initialize: builds the tables from empty ones. Each entry is stored under a key that the scan alone determines (the index, or the area), so a repeated call writes the same entries under the same keys and the result is the same. It also stops at a raising `[...]` range, where the source's exception would end `initialize`; the event bindings after the scan are not modelled.
- JsText.ToUpper: upper-cases ASCII letters only, not the full Unicode case mapping of `toUpperCase`.
- MaskRules.AddRange: characters are Unicode scalar values, so codes in the surrogate range are skipped rather than pushed as lone UTF-16 code units.
- Numbers are unbounded integers. `parseInt` results beyond 2^53 lose precision in JavaScript; that loss is not modelled.
- The `_` branch of the initial-cursor loop assigns to the rule object being visited, not to the helper. It has no effect on the helper and is not modelled.
