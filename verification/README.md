# Proofs about the questionnaire platform

Dafny models of the parts of the repository where correctness is least obvious, and proofs of what they are for.
`dafny verify dfyconfig.toml` checks the whole project.

**The rule evaluator** (`packages/core`). A form is a list of steps holding questions and repeating groups; rules show
steps and questions when a condition over answers holds, and only answers to visible questions count. That makes
visibility its own input. `Forms` models the form, the rules and the publish-time order check, `Answers` the values,
`Evaluation` the conditions and the walk, `Flow` the walk as the nested loops that fill `settled` and `visible`. The
main result is that in a form the order check accepts, the single pass computes the one visibility that its own rules
confirm: it succeeds exactly when there is one, and there is never a second. `RuleTypes` proves that the publish-time
type check makes evaluation total, `Visibility` that hidden answers are inert and later answers cannot reach back,
`Semantics` what each operator, gate and slot means.

**The theme compiler** (`plan/theme-palettes/build.py`). `Srgb` and `Colour` hold luminance, contrast and colour
mixing over exact reals; `x ** 2.4` is any function with `y >= 0` and `y^5 = x^12`, so its monotonicity is proved.
`Tokens`, `Stylesheet`, `Cascade` and `Painting` compile an arbitrary table of themes into a rule list and prove that
the CSS cascade (CSS 2.1 sections 6.4.1 and 6.4.3) over that list reads the table back. `Showcase` drives the classes
of the root element over whole runs of control events. `Audit` and `Report` are the contrast verifier and the
generated report, which must agree.

**Re-entrancy, routing and the test suite.** `Announce` is the announcement store with the stack of deliveries in
progress; `Proxy` the portal's environment routing; `Routes`, `Widths`, `MediaRules` and `DomShapes` the tree and
scanner code of the admin end-to-end suite; `RowMenu`, `AutosaveFlash` and `AppUpdate` three event machines. `Text`
has the split and join laws, `Wrappers` the option and result types.

What is worth knowing about the code itself:

- `RULE_CYCLE` can only be reported together with a `RULE_BACKWARD_TARGET`: a form without backward targets has no
  cycle (`Forms.ForwardFormsAreAcyclic`).
- `verify_all` skips a pair with a transparent colour, the report's accent table does not: it raises. So the report
  is produced exactly when the verifier does not raise and no theme's accent row is transparent
  (`Report.ReportAgreesWithVerifier`; `Report.TransparentAccentStopsTheReport` has such a table).
- The autosave flash is left showing with no timer exactly when `savedAt` goes back to undefined while it shows
  (`AutosaveFlash.FlashEndsIffNeverWithdrawn`; `AutosaveFlash.WithdrawnFlashIsStuck` is the shortest such run).
- The derived hover and active colours keep contrast exactly when the foreground lies beyond the geometric mean of
  base and state (flares included); being on the far side of the base is enough (`Colour.DerivedStateKeepsContrastIff`).
- The sheet's own comment gives `:root.hc` specificity (0,1,1). `:root` is a pseudo-class, so it is (0,2,0), and
  (0,3,0) with a theme attribute; what ties and what wins by order is as the comment says, and the model follows the
  standard.
- `docs/DOMAIN_SCHEMA.md` line 251 says a step target expands to its questions, each shown when one targeting rule
  matches. The evaluator gates the step and the question separately and requires both. The two readings agree exactly
  when the step is untargeted, or the question is, or the two gates agree (`Semantics.ExpansionAgreesIff`); a form
  where they part is in `Visibility.ExpansionShowsWhatTheEvaluatorHides`. The model follows the evaluator.

## Model

| member | source | states |
|---|---|---|
| Forms.AnalyzeTargets | packages/core/src/rule-graph.ts:176-217 | the check reports a (rule, target) pair exactly when the target shows something at or before a position the rule reads, a group operator reading the group's whole span; and nothing iff every target lies strictly after everything read |
| Forms.NoFindingIffForward | packages/core/src/rule-graph.ts:190-217 | comparing the first position shown with the last one read is the same as comparing every pair |
| Forms.ReportedIff | packages/core/src/rule-graph.ts:192-217 | membership in the findings, pair by pair |
| Forms.FindingsFollowTheRules | packages/core/src/rule-graph.ts:176-217 | the findings come rule by rule |
| Forms.DocumentOrderCounts | packages/core/src/rule-graph.ts:40-52 | the place of every question in the document order, by counting steps, items and members, none left out |
| Forms.ForwardFormsAreAcyclic | packages/core/src/rule-graph.ts:219-255 | with no backward target, every walk through the reads-to-shows graph moves down the document, so the cycle check can find nothing more |
| Forms.ReferencesAreTheParts | packages/core/src/rule-graph.ts:57-96 | the questions a condition reads are exactly those of its leaves, and the groups those of its group operators, however deep |
| Forms.ReadsAndShows | packages/core/src/rule-graph.ts:57-189 | a position is read iff a leaf is over its question or a group operator over its group, and shown iff its question or its step is the target |
| Evaluation.AllSlotsInOrder | packages/core/src/rule-graph.ts:40-52 | the slots the walk decides, step by step, are those of the document order, each position expanded in roster order |
| Evaluation.EvalDependsOnItsReferences | packages/core/src/evaluate-rules.ts:279-395 | a condition cannot tell apart two states of rosters, answers and visibility that agree on the questions and groups `collectReferences` finds in it |
| Evaluation.RulesForAreTheTargeting | packages/core/src/evaluate-rules.ts:215-227 | a target is gated by exactly the rules that list it |
| Evaluation.ForwardPassFindsTheOnlyFixpoint | packages/core/src/evaluate-rules.ts:410-477 | in a form with no backward target a set of visible keys confirms itself under the rules iff it is what the single pass computes; the pass errs iff there is none; the list is in document then roster order |
| Evaluation.WalkFollows | packages/core/src/evaluate-rules.ts:411-434 | the walk over a shown step makes visible exactly the slots a self-confirming visibility contains |
| Evaluation.WalkSettles | packages/core/src/evaluate-rules.ts:411-434 | what the walk decided about a slot is still what its rules say once the walk is over |
| Flow.Pass.Run | packages/core/src/evaluate-rules.ts:229-477 | the loops over steps, items, members and instances, updating `settled` and `visible` or stopping at an error, end with the specified outcome |
| Flow.Pass.WalkQuestion | packages/core/src/evaluate-rules.ts:411-434 | deciding one question advances the run by exactly that slot, in both variables, or ends it with its error |
| Flow.Pass.WalkGroup | packages/core/src/evaluate-rules.ts:461-475 | a group is walked member by member, every live instance of one before the next |
| Visibility.PublishedFormsHaveOneVisibility | packages/core/src/evaluate-rules.ts:139-147 | a form that passes both publish checks, with the present answers of live instances of the right types, evaluates without error to the only visibility consistent with its rules |
| Visibility.BackwardRulesHaveNoneOrTwo | docs/DOMAIN_SCHEMA.md:263 | without the order check a visibility can oscillate, so that none is consistent, or latch, so that two are: a concrete form for each |
| Visibility.HiddenAnswersAreInert | packages/core/src/evaluate-rules.ts:229-258 | on any form, changing answers that are not visible (hidden questions, removed instances, unknown keys, blank text) leaves the outcome unchanged |
| Visibility.LaterAnswersNeverReachBack | docs/DOMAIN_SCHEMA.md:257-259 | what is shown at or before a position is decided by the answers before it and the rosters of groups that begin before it; later answers, and rosters of groups that begin at or after it, may be anything |
| Visibility.EveryIsNotAnyNotIffInhabited | packages/core/src/evaluate-rules.ts:307-338 | `everyInstance` equals `not(anyInstance(not c))` iff the group has a live instance |
| Semantics.UnansweredIsFalse | packages/core/src/evaluate-rules.ts:343-390 | a condition over an unanswered or hidden question is false, `notEquals` included |
| Semantics.AnsweredOperators | packages/core/src/evaluate-rules.ts:343-390 | on an answered, settled question: `answered` is true, `equals` and `notEquals` compare the answer with the value, and a containment is true iff the selected and listed options meet, an error on an answer that is no selection |
| Semantics.AnsweredOrder | packages/core/src/evaluate-rules.ts:359-378 | on an answered question an ordered comparison gives the numbers' or the dates' order, and an error on any other pair of kinds |
| Semantics.OneOfIsOr | packages/core/src/evaluate-rules.ts:353-358 | `in` is the `or` of the equalities with each listed value |
| Semantics.CountsTheLive | packages/core/src/evaluate-rules.ts:260-342 | `instanceCount` compares the number of live instances with the count, for all five comparisons |
| Semantics.OrderedOperators | packages/core/src/evaluate-rules.ts:359-378 | gt, gte, lt and lte compare numbers as numbers and dates by the calendar |
| Semantics.ConnectivesShortCircuit | packages/core/src/evaluate-rules.ts:284-302 | `and` is true iff all children are, `or` false iff all are; otherwise the first other outcome, error included, is the result |
| Semantics.NotNegates | packages/core/src/evaluate-rules.ts:303-306 | `not` turns the outcome around and passes an error on |
| Semantics.QuantifiersRangeOverTheLive | packages/core/src/evaluate-rules.ts:307-338 | `anyInstance` is `or` over the live instances in roster order; `everyInstance` is `and` over them, and false over none |
| Semantics.GateMeaning | packages/core/src/evaluate-rules.ts:397-426 | an item is shown iff no rule targets it or some targeting rule is true, whatever the order of the rules |
| Semantics.ExpansionAgreesIff | docs/DOMAIN_SCHEMA.md:251 | reading a step target as its questions, each shown when one targeting rule is true, gives the evaluator's decision iff the step is untargeted, or the question is, or the two gates agree |
| Visibility.ExpansionShowsWhatTheEvaluatorHides | docs/DOMAIN_SCHEMA.md:251 | a concrete form, accepted by both publish checks, and an answer where that reading shows a question and the evaluator hides it |
| Semantics.SlotsAreTheLiveInstances | packages/core/src/evaluate-rules.ts:439-477 | one decision per plain question and one per live instance of each grouped question, and no other |
| Semantics.ReferencesStayInTheInstance | packages/core/src/evaluate-rules.ts:233-250 | outside whole-group operators, a rule inside a group reads its own instance's answers, any plain question's answer, and nothing of another group |
| Semantics.OperatorsBringTheirInstance | packages/core/src/evaluate-rules.ts:233-250 | below a whole-group operator the questions of its group are read in the operator's instance, all others as before |
| Answers.DateOrderIsCalendarOrder | packages/core/src/answer-value.ts:38-46 | string order over the fixed-width date encoding is calendar order |
| Answers.DatesAreCalendarDays | packages/core/src/answer-value.ts:18-40 | a string is a date iff it has the fixed-width shape and a month and a day that the year has, February by the leap years |
| Answers.DatesReadBack | packages/core/src/answer-value.ts:25-42 | year, month and day are read back from the fixed-width encoding, and a string has its shape iff it is the encoding of some fields |
| Answers.BeforeIff | packages/core/src/answer-value.ts:121-129 | a string comes before another iff, after a common start, it runs out or falls below it |
| Answers.BlankIff | packages/core/src/answer-value.ts:171-173 | only text is blank, and it is iff all its characters are white space, by their code points |
| RuleTypes.CheckedRulesNeverFail | packages/core/src/rule-graph.ts:538-713 | a form whose rules draw no type mismatch evaluates without error on every roster when the present answers of its live instances are of the right types, forward-only or not; answers of removed instances, unknown keys and blank text may be anything |
| RuleTypes.OrderedCheckIsExact | packages/core/src/rule-graph.ts:660-683 | the check finds nothing in an ordered comparison iff the comparison evaluates on every admissible answer |
| RuleTypes.ContainsCheckIsExact | packages/core/src/rule-graph.ts:687-696 | it finds a mismatch in a containment iff some admissible answer would make the containment fail, and a dangling option iff a listed option is not declared |
| RuleTypes.KindsByTheirOptions | packages/core/src/ids.ts:9-22 | a choice question has options, each "opt_" and at least one lower-case letter, digit or underscore |
| RuleTypes.EqualityCheckIsExact | packages/core/src/rule-graph.ts:566-625 | it accepts an equality operand iff that operand could be an answer to the question, and reports a dangling option iff the operand selects, by well-formed ids, one that is not declared |
| RuleTypes.LeafCheckIsExact | packages/core/src/rule-graph.ts:650-706 | the check finds nothing in a leaf over a question of some kind iff each operand could be an answer, each ordered bound is of the kind, each containment is over declared options of a multi-choice |
| RuleTypes.TypeCheckIsExact | packages/core/src/rule-graph.ts:538-713 | a finding names a rule and a question iff that rule has, somewhere in its condition, a leaf over that question with such a fault |
| RuleTypes.RulesPassIff | packages/core/src/rule-graph.ts:538-713 | the check finds nothing iff every leaf of every rule over a known question is free of faults |
| Srgb.Pow2_4IsStrictlyIncreasing | plan/theme-palettes/build.py:25 | any non-negative `y` with `y^5 = x^12` grows strictly with `x` |
| Srgb.CurveIsStrictlyIncreasing | plan/theme-palettes/build.py:23-25 | on 8-bit channels the sRGB curve is strictly increasing, across its threshold too |
| Srgb.CurveDipsBetweenBytes | plan/theme-palettes/build.py:25 | over all reals it is not: two inputs around 0.03928 where it falls |
| Srgb.CurveRange | plan/theme-palettes/build.py:23-25 | on bytes the curve stays within [0, 1] |
| Srgb.CurveEndpoints | plan/theme-palettes/build.py:23-25 | byte 0 is 0 and byte 255 is 1 |
| Srgb.CurveOnBytes | plan/theme-palettes/build.py:23-25 | up to byte 10 the curve is the byte over 255 over 12.92, above it 2.4 applied to the shifted and scaled byte |
| Srgb.LuminanceByChannel | plan/theme-palettes/build.py:33-35 | pure red, green and blue weigh 0.2126, 0.7152 and 0.0722, and a colour's luminance is the sum of those of its three single-channel colours |
| Srgb.PlaywrightLuminanceByChannel | apps/admin/e2e/appearance.pw.ts:54-65 | the same of the Playwright luminance, on its own |
| Srgb.LuminanceIsChannelwiseMonotone | plan/theme-palettes/build.py:33-35 | raising channels raises luminance, strictly as soon as one moves |
| Srgb.LuminanceRange | plan/theme-palettes/build.py:33-35 | luminance lies in [0, 1] |
| Srgb.RatioBounds | plan/theme-palettes/build.py:37-40 | the ratio is symmetric, in [1, 21], 1 only on equal and 21 only on extreme luminances |
| Srgb.ContrastBounds | plan/theme-palettes/build.py:37-40 | so is the contrast of two colours; it is 21 exactly on black against white |
| Srgb.DarkerBackgroundKeepsContrastIff | plan/theme-palettes/build.py:37-40 | a darkened background keeps its contrast iff it did not move or the foreground is at or above the geometric mean |
| Srgb.LighterBackgroundKeepsContrastIff | plan/theme-palettes/build.py:37-40 | the mirror image for a lightened background |
| Srgb.ImplementationsAgree | apps/admin/e2e/appearance.pw.ts:54-70 | the Playwright ratio, with threshold 0.04045 and a sort, equals build.py's and the showcase's on every pair of colours |
| Colour.HexRoundTrip | plan/theme-palettes/build.py:27-31 | a printed colour reads back as itself |
| Colour.ShortFormDoubles | plan/theme-palettes/build.py:27-31 | a three-digit colour is read with each digit doubled, with or without its hash |
| Colour.PairsAreRead | plan/theme-palettes/build.py:27-31 | six digits are read in pairs, with or without a hash, whatever follows them |
| Colour.MixIsNearest | plan/theme-palettes/build.py:48-56 | a mixed channel is within one half of the point at the amount between its ends |
| Colour.ChannelMovesWithAmount | plan/theme-palettes/build.py:48-59 | mixing further toward black or white never moves a rounded, clamped channel back |
| Colour.DerivedStateKeepsContrastIff | plan/theme-palettes/build.py:91-93 | the exact condition under which a derived state keeps its foreground's contrast |
| Colour.DerivedStatesNeverLoseContrast | plan/theme-palettes/build.py:91-105 | with the foreground on the far side, contrast with active >= with hover >= with base |
| Colour.HoverCanLoseContrast | plan/theme-palettes/build.py:91-93 | without that side condition it can fall: black on white, hovered |
| Colour.DerivedAtTheExtremes | plan/theme-palettes/build.py:58-93 | the four amounts, as the colours they give: hovered and pressed white in light mode, hovered and pressed black in dark mode |
| Tokens.KeyLists | plan/theme-palettes/build.py:64-76 | every token is emitted, and the high-contrast accent keys are the four primary ones |
| Tokens.BuildMode | plan/theme-palettes/build.py:91-131 | it raises iff one of the three button colours is unreadable, overridden states or not; otherwise every colour key is present |
| Tokens.StatesAreGivenOrDerived | plan/theme-palettes/build.py:91-105 | each button's hover and active colour is the one given, or else derived from that button's own base in the mode's direction |
| Tokens.AnchorsAreTheirTokens | plan/theme-palettes/build.py:91-131 | for each of the 36 tokens, which anchor or derived state it holds |
| Cascade.ComputedIsCascadeWinner | plan/theme-palettes/build.py:442-451 | the scan yields a value iff some rule applies, and then that of the rule no other beats by specificity, then order |
| Stylesheet.RebuildHighContrast | plan/theme-palettes/build.py:312-315 | the loop replaces each theme's palette by the universal one under the theme's accent, and keeps the table well-formed |
| Stylesheet.RebuildIsStable | plan/theme-palettes/build.py:304-315 | rebuilding again changes nothing; the universal palette and every accent survive |
| Stylesheet.CssBlock | plan/theme-palettes/build.py:399-414 | one block: the selector of theme and mode, every colour key, and the font stack in light mode only |
| Stylesheet.EmitTokensCss | plan/theme-palettes/build.py:416-534 | the appending loops build the rule list in emission order |
| Painting.SheetPaintsTheTable | plan/theme-palettes/build.py:437-468 | for every table, attribute and single mode class, whatever other classes the element carries, the cascade over the sheet gives `THEMES[theme][mode][key]` (in high contrast the theme's own four accent tokens over the universal palette), an unknown or default attribute giving the default theme |
| Painting.SheetPaintsTheFont | plan/theme-palettes/build.py:477-484 | the font stack is the chosen font's, or the system stack, in every theme and mode |
| Painting.FontWinsByOrderAlone | plan/theme-palettes/build.py:477-484 | a font class and the light block of a selected alternate theme are equally specific; as emitted the font wins, with the two parts swapped the theme block would |
| Painting.SheetPaintsTheCorners | plan/theme-palettes/build.py:495-498 | the three radii that each corner class paints, in literal values, whatever else the element carries |
| Painting.SheetPaintsTheDensity | plan/theme-palettes/build.py:513-533 | the spacing and control height that each density class paints, in literal values, whatever else the element carries |
| Painting.ControlsGrow | plan/theme-palettes/build.py:495-533 | the painted control radius grows strictly from sharp over subtle and rounded to pill, the painted control height from compact over comfortable to spacious, never below 36 pixels |
| Painting.FontStackOf | plan/theme-palettes/build.py:14-18 | a stack starts with the quoted family and ends in the serif fallback iff the key is one of the five serif ones |
| Painting.DefaultAttributes | plan/theme-palettes/build.py:399-403 | the default theme is the one selected without an attribute |
| Painting.GroupedMembers | plan/theme-palettes/build.py:477-484 | a font is emitted iff it is registered in a displayed group |
| Painting.GroupsInOrder | plan/theme-palettes/build.py:477-484 | fonts come group by group in the order of the groups, and within a group as registered |
| Showcase.Page.ApplyRoot | plan/theme-palettes/build.py:1303-1315 | the managed classes and the attribute become those of the state, foreign classes stay |
| Showcase.Page.Init | plan/theme-palettes/build.py:1369-1378 | the first mode follows the preferences, contrast asked before colour |
| Showcase.Page.Handle | plan/theme-palettes/build.py:1342-1366 | each control changes its own field of the state and reapplies the root |
| Showcase.Page.RunEvents | plan/theme-palettes/build.py:1300-1378 | start-up and a list of events, one after the other |
| Showcase.RootFollowsState | plan/theme-palettes/build.py:1300-1378 | after any run the state is the last choice per axis and the root element a function of it and of the foreign classes |
| Showcase.RunPaintsTheChoices | plan/theme-palettes/build.py:1300-1378 | after any run each painted property is decided by its own control alone: colours equal `TOKENS[theme][mode]`, the font stack is that of the chosen family, and radii and spacing are the literal values of the choice |
| Audit.VerifyAll | plan/theme-palettes/build.py:348-361 | the three loops collect the specified problems, or raise where a colour cannot be read |
| Audit.ProblemsAreFailures | plan/theme-palettes/build.py:348-361 | exactly the failing (theme, mode, pair) triples are returned, each with its record; it raises iff a pair that is not skipped is unreadable |
| Audit.PairsAreCritical | plan/theme-palettes/build.py:326-346 | which sixteen pairs are checked, and which of them as text |
| Audit.NoProblemsIffBarsMet | plan/theme-palettes/build.py:320-361 | no problem is returned iff in every theme text pairs reach 4.5 to 1, in high contrast 7 to 1, and outlines and links 3 to 1, rounded to two decimals, a transparent colour being exempt |
| Audit.PassingButtonsStillPass | plan/theme-palettes/build.py:326-361 | a button pair that passes still passes hovered and pressed, where `build_mode` derives those and the foreground is on the far side |
| Report.EmitReport | plan/theme-palettes/build.py:647-728 | the report's loops print the specified PASS/FAIL rows, or raise |
| Report.ReportAgreesWithVerifier | plan/theme-palettes/build.py:647-728 | it is produced iff the verifier does not raise and no accent row is transparent; produced, it shows no FAIL iff there is no problem |
| Report.TransparentAccentStopsTheReport | plan/theme-palettes/build.py:719-728 | a concrete table, all readable but a transparent button foreground, on which `verify_all` returns and the report raises |
| Report.VerdictMatchesShownRatio | plan/theme-palettes/build.py:662-665 | the tolerance 0.005 is the rounding: PASS iff the two-decimal ratio shown reaches the target |
| Announce.AnnouncementStore.Begin | apps/admin/lib/announce.ts:16-18 | a new snapshot, numbered one higher, and a delivery that holds the very array then subscribed |
| Announce.AnnouncementStore.Subscribe | apps/admin/lib/announce.ts:21-22 | a newly allocated array with the listener last takes the old one's place; the arrays held by deliveries keep their contents, and so does the delivery invariant |
| Announce.AnnouncementStore.Unsubscribe | apps/admin/lib/announce.ts:23-25 | a newly allocated array without the listener's entries; the arrays held by deliveries keep their contents, and so does the delivery invariant |
| Announce.AnnouncementStore.CallNextListener | apps/admin/lib/announce.ts:18 | the loop calls the next listener of the array it holds, whatever was subscribed since |
| Announce.StepKeepsInv | apps/admin/lib/announce.ts:11-31 | every use of the store and every step of a delivery keeps the delivery invariant, at any nesting |
| Announce.DeliversToTheListenersAtItsStart | apps/admin/lib/announce.ts:13-19 | an announce that is over called exactly the listeners of its start, once per occurrence and in order, whatever they did |
| Announce.RunFollowsActions | apps/admin/lib/announce.ts:11-31 | after any run the subscribers are the subscriptions not withdrawn since, in order, and the announces begun those of the run with the subscriptions standing at each, both read off the actions alone |
| Announce.AnnouncesReachTheSubscribed | apps/admin/lib/announce.ts:11-31 | an announce that is over called exactly the listeners whose subscriptions stood at its action, and what is read is the last one announced |
| Announce.AnnounceRunsThrough | apps/admin/lib/announce.ts:11-19 | from any state where code may announce, one whose listeners do nothing can run to its end: it calls every subscriber once, in order, with the new text to read, and leaves all else, the deliveries in progress included, as it was |
| Announce.SequenceCountsAnnounces | apps/admin/lib/announce.ts:16-17 | in every reachable state `seq` is the number of announces begun, and only an announce replaces the snapshot |
| Announce.ObservationsNeverGoBack | apps/admin/lib/announce.ts:16-31 | what calls read never decreases, and is never older than the announce that made the call |
| Announce.AtRestTheLastAnnouncementIsSeen | apps/admin/lib/announce.ts:16-31 | at rest every listener subscribed when the last announce began has read that announcement |
| Announce.UnsubscribeRemovesEveryEntry | apps/admin/lib/announce.ts:23-25 | one unsubscribe removes every entry of the function and no other |
| Text.JoinOfSplit | apps/portal/proxy.ts:19-23 | joining what was split gives the string back, and no part holds the separator |
| Text.SplitOfJoin | apps/portal/proxy.ts:19-23 | splitting what was joined gives the parts back |
| Proxy.NonProdEnvironments | apps/portal/lib/server/environment.ts:8-15 | configured names are never prod, never empty and never hold a slash |
| Proxy.NamesByCharacter | apps/portal/lib/server/environment.ts:14 | a name is a lower-case letter followed by such letters and digits |
| Proxy.ConfiguredIff | apps/portal/lib/server/environment.ts:8-15 | a name is configured iff some comma-separated entry, trimmed and lower-cased, is that name, in the names' syntax and not prod |
| Proxy.ResolutionLosesNothing | apps/portal/proxy.ts:18-24 | "/" + environment + path is the original, or the original plus a slash; other paths are prod's unchanged; stripping shortens |
| Proxy.EmittedAddressesResolve | apps/portal/lib/server/environment.ts:45-51 | resolution inverts `environmentPath` |
| Proxy.AnonymousEntryBySegment | apps/portal/proxy.ts:26-28 | an anonymous entry is a path whose first segment is exactly "f" |
| Proxy.RefusedIff | apps/portal/proxy.ts:48-64 | refused iff the segment after the prefix is "f" and the environment is not prod or the host is reserved |
| Proxy.UnrewrittenIff | apps/portal/proxy.ts:30-38 | no rewrite iff not refused and the environment is prod |
| Proxy.Handle | apps/portal/proxy.ts:48-66 | the four own headers replace any sent under their names and all others pass; the environment is the first segment if configured, else prod; the rewrite, read off the segments, is the refusal, the rest of the address after the prefix, or none |
| Proxy.SentEnvironmentIsIgnored | apps/portal/proxy.ts:51-58 | what is forwarded is the same with and without an environment header sent by the respondent |
| Routes.RoutePatternsUnder | apps/admin/e2e/reflow.pw.ts:26-37 | the loop with recursion collects the specified patterns |
| Routes.ShellRoutes | apps/admin/e2e/forced-password-change.pw.ts:35-47 | the flat loop collects the specified routes |
| Routes.WalkMatchesFiles | apps/admin/e2e/reflow.pw.ts:26-37 | under any directory outside slots the filled patterns are the routes of that tree's files, slots dropped at any depth and groups erased |
| Routes.DiscoveriesAgree | apps/admin/e2e/forced-password-change.pw.ts:35-47 | for every tree and every listing of its files both discoveries give the same multiset of routes |
| Routes.LivePathKeepsSegments | apps/admin/e2e/reflow.pw.ts:39-62 | a live path has the pattern's segments with exactly the parameters replaced; it throws iff one has no fixture |
| Routes.NameKinds | apps/admin/e2e/reflow.pw.ts:26-37 | the first character of a folder's name makes it a slot, a group or a parameter |
| Routes.FolderRoutes | apps/admin/e2e/reflow.pw.ts:26-37 | a slot contributes nothing, a group its contents at the same prefix, any other folder its contents one segment further |
| Routes.PageComesFirst | apps/admin/e2e/reflow.pw.ts:26-30 | a directory with a page contributes its own route first, the root's being "/" |
| Routes.PageRoutes | apps/admin/e2e/forced-password-change.pw.ts:35-47 | a tracked file has a route iff it is a page outside every slot, and the route joins its directories without groups, parameters as placeholders |
| Widths.WidthsOf | apps/admin/e2e/breakpoints.pw.ts:12-27 | the one-pass scan finds the widths defined without a state |
| Widths.IncludesIff | apps/admin/e2e/breakpoints.pw.ts:13 | a text is included iff it stands between some start and some rest |
| Widths.WidthIsMaximalRun | apps/admin/e2e/breakpoints.pw.ts:16-25 | a width is found at a position iff a maximal numeric run ends there and a unit follows, and it is that run's number, times the root size for em and rem |
| Widths.NumbersRead | apps/admin/e2e/breakpoints.pw.ts:16-23 | a run of digits reads as its decimal value, with one point in it as that of all its digits with the point shifted |
| Widths.SecondPointIsNone | apps/admin/e2e/breakpoints.pw.ts:16-23 | a run with a second point reads as NaN |
| Widths.WidthsDistribute | apps/admin/e2e/breakpoints.pw.ts:12-27 | the scan distributes over concatenation at every cut outside runs and units |
| MediaRules.Collector.Add | apps/admin/e2e/breakpoints.pw.ts:34-38 | the selector joins its condition's entry, or a new last entry |
| MediaRules.Collector.Walk | apps/admin/e2e/breakpoints.pw.ts:40-47 | the recursive walk gathers the filings of the rules, in order |
| MediaRules.Collector.MediaConditions | apps/admin/e2e/breakpoints.pw.ts:49-56 | sheets in turn, an inaccessible one skipped |
| MediaRules.SheetsInTurn | apps/admin/e2e/breakpoints.pw.ts:49-56 | the filings of some sheets are those of each in turn, none for an inaccessible one |
| MediaRules.ListGroupsTheFilings | apps/admin/e2e/breakpoints.pw.ts:34-38 | distinct conditions in first-occurrence order, each with exactly its selectors, and the selector count conserved |
| MediaRules.WalkFilesUnderInnermostMedia | apps/admin/e2e/breakpoints.pw.ts:40-47 | every rule is visited once, and exactly the style rules below a media rule are filed, under the innermost one |
| DomShapes.NormaliseIsIdempotent | apps/admin/e2e/repeating-groups.pw.ts:556-569 | normalising twice is normalising once |
| DomShapes.NormalFormsAgreeIff | apps/admin/e2e/repeating-groups.pw.ts:556-569 | two trees have the same normal form iff they are alike node by node: the same tag, the same attributes but for those normalised away, the same text, children alike |
| DomShapes.NormaliseCommutesWithWalk | apps/admin/e2e/repeating-groups.pw.ts:556-589 | at either ceiling normalising and demoting commute |
| DomShapes.NormaliseCommutesWithEmbedding | apps/admin/e2e/repeating-groups.pw.ts:556-589 | `normalise` and `asEmbedded` commute |
| DomShapes.EmbeddingDemotesHeadingsOnly | apps/admin/e2e/repeating-groups.pw.ts:579-595 | embedding changes heading tags alone, leaves no h1, caps at h4 under a legend and h6 elsewhere |
| DomShapes.EmbeddedIff | apps/admin/e2e/repeating-groups.pw.ts:579-595 | a tree is the embedded form of another iff it is that tree with every heading one level down, h4 at most at or below a legend, h6 at most elsewhere |
| DomShapes.HeadingsGoOneDown | apps/admin/e2e/repeating-groups.pw.ts:571-595 | a heading goes one level down, up to its ceiling |
| DomShapes.FiveEmbeddingsSuffice | apps/admin/e2e/repeating-groups.pw.ts:579-595 | five embeddings reach a fixed point of any tree |
| DomShapes.FourEmbeddingsDoNotSuffice | apps/admin/e2e/repeating-groups.pw.ts:579-595 | four do not |
| RowMenu.Menu.OnKeyDown | apps/admin/components/row-menu.tsx:35-52 | what each key does to focus and to the menu |
| RowMenu.DownsVisitEveryItemOnce | apps/admin/components/row-menu.tsx:41-51 | n ArrowDowns visit each of the n enabled items once and return |
| RowMenu.ArrowFromEntry | apps/admin/components/row-menu.tsx:45-51 | from an enabled item ArrowDown goes to the next enabled one and ArrowUp to the previous, cyclically |
| RowMenu.ArrowFromOutside | apps/admin/components/row-menu.tsx:45-51 | from outside the menu ArrowDown goes to the first enabled item and ArrowUp to the last |
| RowMenu.ArrowsAreInverse | apps/admin/components/row-menu.tsx:45-51 | ArrowUp and ArrowDown undo each other from any enabled item |
| RowMenu.DisabledIsNeverReached | apps/admin/components/row-menu.tsx:9-51 | no run of keys moves focus to a disabled item |
| AutosaveFlash.FlashComponent.Rerender | apps/admin/components/save-model.tsx:83-98 | cleanup, then effect, when the prop changed |
| AutosaveFlash.FlashComponent.Wait | apps/admin/components/save-model.tsx:92-94 | a due timer takes the flash down |
| AutosaveFlash.AtMostOneTimer | apps/admin/components/save-model.tsx:88-98 | in every run at most one timer is pending, due a flash after the latest new stamp |
| AutosaveFlash.MountingNeverFlashes | apps/admin/components/save-model.tsx:85-89 | nothing flashes before a stamp other than the one mounted with |
| AutosaveFlash.NewStampFlashes | apps/admin/components/save-model.tsx:79-98 | after any run a new stamp shows the flash, which is still there after a wait iff the wait is under 1800 milliseconds |
| AutosaveFlash.FlashEndsIffNeverWithdrawn | apps/admin/components/save-model.tsx:88-98 | every flash shown has its timer iff the stamp never goes back to undefined while one shows |
| AutosaveFlash.FlashHasItsTimer | apps/admin/components/save-model.tsx:88-98 | in every run where no stamp goes back to undefined under a flash, a visible flash has exactly one timer, due within FLASH_MS of the latest new stamp |
| AutosaveFlash.WithdrawnFlashIsStuck | apps/admin/components/save-model.tsx:88-98 | a first save followed by a render with no stamp: visible, with no timer |
| AutosaveFlash.StuckFlashOutlastsTime | apps/admin/components/save-model.tsx:88-98 | a flash left without its timer outlasts any wait |
| AppUpdate.EveryInterleaving | apps/admin/components/app-update.tsx:16-61 | one listener is put up when the registration resolves while mounted and one on each installing worker, read off the events; attached are exactly those with a pending detach, none after cleanup; the worker on offer is the last put forward while mounted and controlled, and each press tells exactly the worker then on offer; the page reloads once per press and never otherwise |
| AppUpdate.SilentAfterUnmount | apps/admin/components/app-update.tsx:29-55 | after cleanup nothing is heard, offered or attached, even when the registration resolves late |
| AppUpdate.UpdateNotice.OnRegistered | apps/admin/components/app-update.tsx:29-47 | the resolved registration offers its waiting worker and attaches one listener with its detach |
| AppUpdate.UpdateNotice.OnUpdateFoundEvent | apps/admin/components/app-update.tsx:32-42 | each installing worker gets one listener with its detach |
| AppUpdate.UpdateNotice.Cleanup | apps/admin/components/app-update.tsx:52-55 | the loop detaches exactly the pending listeners |

## Left out

- The rest of the flow state: step lists, step views, required accounting and the current step are computed from the visible list and the definitions.
- The other publish findings (count order, target scopes, operator nesting, scoped references, the evaluation budget), the duplicate ids the form parser refuses beyond questions, and Tarjan's algorithm, of which only the existence of cycles matters here.
- Parsing of snapshots, conditions and answers: values are already parsed, text is NFC, a selection is a set, and an answer key is a pair of question and instance. Numbers are reals, so a non-finite operand does not occur.
- RuleTypes.CheckedRulesNeverFail: an answer fits by its encoding and its declared options; length, range and pattern constraints do not bear on evaluation.
- The derivation of live rosters from the count source, which runs above the evaluator; a roster is a parameter.
- File writing, Markdown and HTML text, styling, the literal palettes and the showcase card's own pass/check label, whose button bar differs from the verifier's.
- Floating-point rounding: contrast is over exact reals; Python's `round` is round half to even.
- Root elements with both `dark` and `hc`, which the page never produces and the sheet has no rule for.
- Colour.HexToRgb: white space around a colour, and signs or underscores inside it, which Python's `int` accepts.
- Explicit hover and active colours: the derived-state results cover what `build_mode` computes.
- Tokens.BuildMode: fills the palette as one function rather than entry by entry; the dictionary's order is not modelled.
- Critical pairs are named by their two tokens instead of the script's labels, and class lists are sets.
- Listener exceptions in `announce`, and the server snapshot; arrays have a fixed length, so a push into one in place cannot be written at all.
- URL parsing, the host lookup and the response headers of the proxy; JavaScript's `trim` and `toLowerCase` are parameters.
- Proxy.Handle: nonce, request id and policy are parameters; what it says of the address is for pathnames that start with a slash, which a URL's do.
- Widths.WidthsOf: conditions are ASCII.
- MediaRules.Collector.MediaConditions: a sheet is accessible as a whole or not at all.
- `withNormalizedInstanceIds`: not part of this model.
- Timers fire as soon as they are due; rendering, focus rings and geometry are not modelled.
- AppUpdate.EveryInterleaving: a browser without service workers, where the effect returns at once, and the double mounting of React's strict mode.
