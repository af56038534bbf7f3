# Verified cores of the repository tooling

The repository's CI gates, its ruleset reconciler and its desktop-journey runner
have small algorithmic cores under a lot of file and process I/O: character
machines, worklists, stacks, ledgers, a printer and a parser.  This project models
those cores in Dafny and proves what the gates rest on, for every input.  I/O,
`ast.parse`, hashing and network calls are parameters: the model is handed texts,
trees, scopes, events and scripts of outcomes.

Check everything with `dafny verify dfyconfig.toml`.

| file | tool | main results |
|---|---|---|
| `CssSelectors.dfy` | `check_css_selector_shadowing.py` | normal forms are canonical: equal exactly when two selectors differ by insignificant whitespace; the list splitter is the one way to cut at top-level commas, and printing then splitting is the identity |
| `CssGrammar.dfy` | same | the same stated on texts as they are written: what brackets and strings shield, where a list is cut, how a selector is spaced |
| `CssSheet.dfy` | same | the index loop with its stack reports exactly what the block tree of the text declares, for every text, balanced or not |
| `CssRules.dfy` | same | what a written stylesheet reports, read off its comments, heads and blocks |
| `Rulesets.dfy`, `Reconciler.dfy` | `apply_branch_protection.py` | what normalisation identifies, exactly; a run counts the rulesets that drift; applying converges; a preview counts what applying would |
| `RoutePatterns.dfy`, `RouteTable.dfy` | `check_route_reachability.py` | the worklist computes the least set closed under delegation and keeps, of routes with one key, a nearest; a route accepts exactly its filled-in forms; which paths the whole gate lists |
| `Facades.dfy` | `ai-backend-smells/orphans.py` | the closure is least; a facade never vouches for its own package; what renames make the scan miss and credit wrongly, exactly |
| `Journey.dfy` | `desktop-journeys/_lib.py` | one outcome per selected phase whatever fails; the exit code of any run by how its callbacks ended, and for which scripts it is always the deserved one; the environment is put back |
| `SecretScan.dfy` | both journey libraries | the two chunked scans decide the same predicate |
| `EffectLedger.dfy` | `desktop-journeys/_release_matrix_lib.py` | the fold yields, field by field, what the log last says, and fails exactly at a broken event; the decision check, exactly |
| `AuditVisitor.dfy` | `check_audit_in_transaction.py` | the report line by line; a file is accepted exactly when every unguarded write is covered in its own function |
| `AuthorityMap.dfy` | `check_f_series_contract_authority_map.py` | no errors exactly when every expected contract has one owner and nothing else is owned |
| `ManifestLock.dfy` | `check_migration_manifest.py` | a rendered manifest parses back exactly when every entry survives a line |
| `Text.dfy`, `Ordering.dfy` | shared | Python's whitespace and trimming; its stable sort |

Three results say where the code does less than its documentation promises.  The
code is modelled as it is, with a concrete input and the exact condition:

- `exit_code` is documented as 0 only when every phase ran and passed.  A boot whose
  phase ids were all offered before under its label breaks this when it fails as a group:
  `Journey.SharedLabelHidesAFailedBoot`.  `Journey.ExitCodeMeaning` says for any run when
  the code is 0, 1, 2 and 3, and `Journey.ExitCodeIsDeserved` for which scripts it is the
  deserved code whatever the callbacks do.
- A re-export is documented to credit the module at the end of the chain and nothing
  else.  The code follows the alias instead of the symbol, so a rename loses the defining
  module and can credit one that merely has the alias for a name: `Facades.AliasMisleads`,
  `Facades.RenamesDecide` and `Facades.RenamesDecideUse` for the condition, and
  `Facades.AnyRenameMatters` for trees in which any rename at all does this.
- Rulesets are compared in a form meant to be insensitive to the server's order.  Two
  rules of one type, swapped, are still drift: `Rulesets.SwappedTiesDiffer`.
  `Rulesets.OrderNeverMatters` says for which values no order is drift, and
  `Rulesets.RespelledNormalizesAlike` for which pairs there is none.

A fourth, `RoutePatterns.OwnCallerIsAccepted`, shows that a route ending in a slash is
never reached by a caller that spells it, since callers lose that slash.

## Model

| member | source | states |
|---|---|---|
| CssSelectors.NormalizeSelector | tools/check_css_selector_shadowing.py:357-399 | the character loop, with its pop loop and its two-character escape jump, prints the normal form that the lemmas below are about |
| CssSelectors.PopSpaces | tools/check_css_selector_shadowing.py:390-391 | the pop loop before a combinator drops exactly the spaces at the end |
| CssSelectors.SplitSelectorList | tools/check_css_selector_shadowing.py:317-354 | the splitting loop yields the non-blank normal forms of the raw parts |
| CssSelectors.KeepNonBlank | tools/check_css_selector_shadowing.py:354 | normalising the parts and dropping blank ones |
| CssSelectors.FeedTracksMode | tools/check_css_selector_shadowing.py:325-353 | normaliser and splitter agree on quotes, escapes and bracket depth after every text |
| CssSelectors.NormalizeIdempotent | tools/check_css_selector_shadowing.py:357-399 | normalising twice changes nothing, for every text, unterminated strings and unbalanced brackets included |
| CssSelectors.NormalizeKeepsVisible | tools/check_css_selector_shadowing.py:357-399 | the sequence of non-whitespace characters is kept |
| CssSelectors.CombinatorPadding | tools/check_css_selector_shadowing.py:386-393 | whatever whitespace surrounds a top-level combinator, the result is the same |
| CssSelectors.NormalizeIsCanonical | tools/check_css_selector_shadowing.py:357-399 | two texts get one normal form if and only if a series of whitespace respellings at insignificant places leads from one to the other |
| CssSelectors.RawPartsCharacterised | tools/check_css_selector_shadowing.py:317-353 | the raw parts are the only cut whose parts hold no separator, close at top level except the last, and join with commas to the prelude |
| CssSelectors.SplitOfPrinted | tools/check_css_selector_shadowing.py:317-354 | printing a split list with ", " and splitting it again returns the same list |
| CssGrammar.SplitsAtTopCommas | tools/check_css_selector_shadowing.py:317-353 | texts of characters, strings with escapes, and bracket groups nested to any depth, the last one perhaps left open, joined with commas, are cut at exactly those commas |
| CssGrammar.NormalizeOfSelector | tools/check_css_selector_shadowing.py:357-399 | compounds of such pieces, with any whitespace between them and around `>`, `+` and `~`, are printed unchanged with one space where there was whitespace and one on either side of each combinator |
| CssGrammar.NestedIsShielded | tools/check_css_selector_shadowing.py:338-341 | a group or a string, whatever commas, combinators and whitespace it holds, is one part and its own normal form |
| CssSheet.ParseRules | tools/check_css_selector_shadowing.py:425-530 | the index loop over characters equals scanning the tokens of the text |
| CssSheet.ReadString | tools/check_css_selector_shadowing.py:470-484 | the inner loop stops where the string ends, backslash pairs skipped, the end of the text included |
| CssSheet.OpenBlock | tools/check_css_selector_shadowing.py:486-511 | what an opening brace reports and pushes |
| CssSheet.ReportPrelude | tools/check_css_selector_shadowing.py:493-504 | the class-bearing selectors of a prelude, in order, with its offset and comments |
| CssSheet.TokensLossless | tools/check_css_selector_shadowing.py:458-528 | the tokens spell the text |
| CssSheet.StringsAreAtomic | tools/check_css_selector_shadowing.py:470-484 | a string is one token whatever braces, semicolons or comment marks it holds |
| CssSheet.CommentsAreAtomic | tools/check_css_selector_shadowing.py:462-468 | a comment is one token whatever it holds |
| CssSheet.ScanItem | tools/check_css_selector_shadowing.py:445-530 | scanning one item of a block tree, at any depth, reports its blocks and returns the stack to its entry value |
| CssSheet.SheetReportsItsTree | tools/check_css_selector_shadowing.py:425-530 | a stylesheet reports, in document order, exactly the selected selectors of the style blocks whose ancestors are all nesting at-rules, with the offset and the comments above each |
| CssSheet.EveryTextReportsATree | tools/check_css_selector_shadowing.py:425-530 | the same for every text: missing braces count as closed at the end, stray ones end a statement |
| CssSheet.CommentsNeverSelect | tools/check_css_selector_shadowing.py:462-468 | scanning without the comment tokens reports the same selectors |
| CssSheet.StringContentsNeverSelect | tools/check_css_selector_shadowing.py:458-528 | rewriting any one string outside a block prelude, in a whole text, leaves the reported selectors unchanged, whatever braces, semicolons and comment marks the new body holds |
| CssSheet.CommentContentsNeverSelect | tools/check_css_selector_shadowing.py:458-528 | the same for any one comment anywhere and any body that does not close it |
| CssSheet.Retokenised | tools/check_css_selector_shadowing.py:458-484 | the rewritten text reads back as the same tokens with just that one replaced |
| CssRules.SheetReports | tools/check_css_selector_shadowing.py:425-530 | a stylesheet written as statements and nested blocks, with comments and strings anywhere, reports one rule for each selector of each style head that only wrapping at-rules enclose, at the head's first visible character, with the comments before it |
| CssRules.NestingIsWraps | tools/check_css_selector_shadowing.py:143-154 | an at-rule is looked into if and only if its name, in any capitalisation, is media, supports, layer, container, scope or starting-style and ends at a space, a parenthesis or the end |
| CssRules.TokenOfChar | tools/check_css_selector_shadowing.py:486-528 | outside strings and comments, braces and semicolons stand for themselves and any other character is plain |
| CssRules.OpenString | tools/check_css_selector_shadowing.py:470-484 | an unclosed string runs to the end of the text, a last backslash included |
| CssRules.OpenComment | tools/check_css_selector_shadowing.py:462-468 | an unclosed comment runs to the end of the text |
| CssRules.ClassBearingKeeps | tools/check_css_selector_shadowing.py:492-493 | of a selector list exactly the class-bearing members are kept, in order |
| Rulesets.NormalizeIdempotent | tools/apply_branch_protection.py:144-169 | normalising a JSON value twice changes nothing |
| Rulesets.ObjectsNormalizeAlike | tools/apply_branch_protection.py:144-169 | two objects normalise alike if and only if they have the same fields that are not empty lists, alike one by one, where the ordered fields need only agree sort key by sort key |
| Rulesets.ReorderedNormalizesAlike | tools/apply_branch_protection.py:144-169 | permuting bypass actors or rules under distinct sort keys, and adding or removing empty lists, at any depth, changes nothing |
| Rulesets.RespelledNormalizesAlike | tools/apply_branch_protection.py:144-169 | at every depth, two values normalise alike if and only if they have one shape, empty lists in objects aside, with ordered fields matched one by one among elements of one sort key |
| Rulesets.OrderNeverMatters | tools/apply_branch_protection.py:144-169 | every reordering of the ordered lists of a value, at any depth, normalises alike if and only if elements that share a sort key do |
| Rulesets.SwappedTiesDiffer | tools/apply_branch_protection.py:162-165 | two rules with one type, swapped, normalise differently |
| Rulesets.ListsAreOrdered | tools/apply_branch_protection.py:154-165 | the bypass actors of a normal form are those of the input, by actor_type and then actor_id, a missing or false-like id counting as 0, and its rules by type; those alike in these keep the order they had |
| Rulesets.FieldsAreKept | tools/apply_branch_protection.py:147-153 | a normal form has exactly the fields that are not empty lists, and all but those two lists are the normalised values |
| Rulesets.RaisesByFields | tools/apply_branch_protection.py:154-165 | normalising raises if and only if some value below does, or a normalised bypass actor or rule is no object, or an actor_id that counts does not convert |
| Rulesets.ComparableByFields | tools/apply_branch_protection.py:33-42 | a comparison looks at every field but the eight the server adds and empty lists |
| Rulesets.ServerFieldsNeverDrift | tools/apply_branch_protection.py:138-142 | setting a field the server adds changes no comparison |
| Ordering.SortEqual | tools/apply_branch_protection.py:154-165 | two lists sort alike if and only if they agree, key by key, on elements and order |
| Ordering.TakeOne | tools/apply_branch_protection.py:154-165 | two lists agree key by key if and only if they do after taking the first of one and its first like from the other |
| Ordering.SortIgnoresOrder | tools/apply_branch_protection.py:154-165 | every reordering of a list sorts alike if and only if elements that share a key are equal |
| Ordering.SortStable | tools/apply_branch_protection.py:154-165 | elements with equal keys keep their order |
| Ordering.StrLeqByFirstDifference | tools/apply_branch_protection.py:154-165 | texts are ordered by where they first differ, a prefix coming first |
| Reconciler.RulesetReconciler.Run | tools/apply_branch_protection.py:196-209 | the run's outcome and server state; with distinct names it raises if and only if some declared ruleset or its last listed namesake cannot be compared, else it counts the declared rulesets without a namesake or whose last listed namesake compares differently, and when applying writes that often |
| Reconciler.RulesetReconciler.ReconcileAll | tools/apply_branch_protection.py:201-204 | the counting loop over the declared rulesets |
| Reconciler.RunCountsDrift | tools/apply_branch_protection.py:196-235 | the same for any completed run, applied or previewed, stated on the starting store |
| Reconciler.RulesetReconciler.ReconcileOne | tools/apply_branch_protection.py:211-235 | create, update, leave alone, or raise; nothing is written in a preview |
| Reconciler.RulesetReconciler.IndexByName | tools/apply_branch_protection.py:198-200 | the listed rulesets by name, the last one of a name counting |
| Reconciler.NamesAreKept | tools/apply_branch_protection.py:196-235 | a server that keeps the comparable form keeps a name that is a text, so an updated ruleset is found again |
| Reconciler.ApplyConverges | tools/apply_branch_protection.py:196-235 | after a completed apply run every declared ruleset matches, others are untouched, anything new is declared, and another run, preview or not, counts 0 and writes nothing exactly when every declared ruleset can be compared |
| Reconciler.PreviewAgrees | tools/apply_branch_protection.py:196-235 | a preview writes nothing, and counts or raises as applying would |
| RouteTable.Extract | tools/check_route_reachability.py:589-626 | the worklist ends on every delegation graph; it has seen the least set closed under delegation, and the routes are exactly prefix + path over it, one per display path and methods: the first registration on a router the fewest delegations away, constructed routers in the order of their functions |
| RouteTable.ReachedByChain | tools/check_route_reachability.py:596-626 | a router is reached if and only if a chain of calls that hand it on leads to it from a function that constructs one |
| RouteTable.RegistersByChain | tools/check_route_reachability.py:608-617 | a key is registered if and only if a function at the end of such a chain adds a path that is displayed so behind the constructed prefix |
| RouteTable.WithinByChain | tools/check_route_reachability.py:601-624 | a router is at most n delegations away if and only if such a chain of at most n steps leads to it |
| RouteTable.FirstIsEarliest | tools/check_route_reachability.py:608-617 | of the registrations on one router with one displayed path and the same methods, the first in the source is the route |
| RouteTable.CollectSeeds | tools/check_route_reachability.py:597-599 | the queue starts with every constructed router, function by function |
| RouteTable.CollectRegistrars | tools/check_route_reachability.py:589-592 | the callees that take a router, by name |
| RouteTable.RegisterAll | tools/check_route_reachability.py:608-617 | one router's registrations are recorded, an earlier route with the same key stays |
| RouteTable.Delegate | tools/check_route_reachability.py:619-624 | the router is queued for every parameter of every callee it is handed to |
| RouteTable.FirstIsKept | tools/check_route_reachability.py:596-626 | visiting nearest routers first and keeping the first route of each key keeps one no farther than any other that registers the key |
| RouteTable.LayerStep | tools/check_route_reachability.py:601-624 | the queue visits routers in the order of how many delegations lead to them, constructed ones function by function |
| RouteTable.UniverseIsClosed | tools/check_route_reachability.py:619-624 | delegation stays in a finite universe, so the loop ends |
| RouteTable.DisplayOfRoute | tools/check_route_reachability.py:215-218 | the display path is the path with every converter stripped |
| RouteTable.DisplayOfParameter | tools/check_route_reachability.py:215-218 | a parameter is displayed as its name in braces, whatever converter follows it |
| RouteTable.DisplayOfLiteral | tools/check_route_reachability.py:215-218 | everything outside braces is displayed as it is |
| RouteTable.CallersReach | tools/check_route_reachability.py:682-686 | some candidate matches |
| RouteTable.UnreachableRoutes | tools/check_route_reachability.py:764-777 | a path is listed if and only if some route has it and no route that has it is reached; each once, in path order |
| RouteTable.SpelledRouteIsNeverListed | tools/check_route_reachability.py:671-680 | a route that some caller spells, a hole for every parameter, is never listed unreachable |
| RouteTable.Gate | tools/check_route_reachability.py:802-816 | extraction and verdict together: a path is listed if and only if a router of the least closed set registers it and no caller matches a route kept for it |
| RouteTable.SpelledPathIsNotListed | tools/check_route_reachability.py:671-816 | the gate does not list the path of a kept route that a caller spells |
| RoutePatterns.MatchesIsAccepts | tools/check_route_reachability.py:226-244 | a backtracking matcher decides the existence of a split, which is what the anchored expression means |
| RoutePatterns.WrittenRouteAccepts | tools/check_route_reachability.py:226-244 | a written route accepts exactly the texts that fill its parameters: with anything but a newline where the declaration ends in `:path`, else with anything but a slash, never with nothing |
| RoutePatterns.OneParameterAccepts | tools/check_route_reachability.py:232-241 | with one parameter: exactly what stands between the two literals is such a filling |
| RoutePatterns.RouteAcceptsFilled | tools/check_route_reachability.py:226-244 | the same on the pieces of the route |
| RoutePatterns.RouteMatchesSegmentwise | tools/check_route_reachability.py:226-244 | where each parameter fills a segment, a match is segment-by-segment comparison |
| RoutePatterns.MatchKeepsSlashes | tools/check_route_reachability.py:226-244 | without a spanning parameter a match has the route's slashes |
| RoutePatterns.ParentAndChildShareNoCaller | tools/check_route_reachability.py:229-230 | a route and one that extends it never accept each other's callers |
| RoutePatterns.PiecesOfRoute | tools/check_route_reachability.py:236-243 | reading a written route gives back its literals and parameters |
| RoutePatterns.CallerNormalises | tools/check_route_reachability.py:671-680 | query and fragment are cut and every hole, in either spelling, becomes one wildcard |
| RoutePatterns.NormalisedCaller | tools/check_route_reachability.py:671-680 | a caller becomes its path, without the query and one trailing slash, if that is under `/v1/` or `/internal/`, and else nothing |
| RoutePatterns.CandidateOfHole | tools/check_route_reachability.py:638-640 | a hole stands as a null character |
| RoutePatterns.OwnCallerIsAccepted | tools/check_route_reachability.py:671-686 | a caller that spells a route normalises to a candidate it accepts if and only if the route does not end in a slash |
| Facades.ThroughFacades | tools/ai-backend-smells/orphans.py:134-162 | the loop ends for every facade map and returns the least set with the name that is closed under re-export target and target with the same leaf |
| Facades.UniverseIsClosed | tools/ai-backend-smells/orphans.py:147-161 | though hops build new names, only finitely many can turn up |
| Facades.CollectFacades | tools/ai-backend-smells/orphans.py:255-262 | the facade map of all packages, only their own submodules counted |
| Facades.ExportsByImports | tools/ai-backend-smells/orphans.py:255-262 | a package exports an alias if and only if a from-import in an `__init__` of its binds it to something inside the package, and as the last such import says |
| Facades.ImportsThatCount | tools/ai-backend-smells/orphans.py:255-274 | an import counts unless it stands in the `__init__` of a package that the imported name lies in |
| Facades.ReachesBySteps | tools/ai-backend-smells/orphans.py:134-162 | a name is reached if and only if a chain of steps leads there, each from an exported name to its module or to the same leaf in it |
| Facades.ReachableModules | tools/ai-backend-smells/orphans.py:255-274 | a name is reached if and only if some import that is not its facade's own leads to it through re-exports, or a module names it for late import |
| Facades.IsCandidate | tools/ai-backend-smells/orphans.py:276-301 | a module is a candidate if and only if no name inside it is used or named for late import |
| Facades.FacadesCannotVouch | tools/ai-backend-smells/orphans.py:255-274 | something inside a package is used if and only if an import that is not its own facade's names it, or a used name outside it is re-exported from inside |
| Facades.EntriesDecide | tools/ai-backend-smells/orphans.py:134-162 | no name outside a package leads in, whoever imports it, if and only if every exported name that stands for something inside is itself inside |
| Facades.RenamesDecide | tools/ai-backend-smells/orphans.py:109-162 | every name credits all it stands for if and only if each renamed symbol is still found from its exported name, and nothing else if and only if what is looked for instead is really led to |
| Facades.RenamesDecideUse | tools/ai-backend-smells/orphans.py:255-274 | the same for what a given set of modules uses |
| Facades.AnyRenameMatters | tools/ai-backend-smells/orphans.py:109-162 | where no module re-exported from is called as a renamed symbol, nothing is missed if and only if nothing is renamed; where moreover nothing stands for a renaming alias, nothing is credited wrongly if and only if nothing is renamed |
| Facades.AliasMisleads | tools/ai-backend-smells/orphans.py:131-161 | a module set in which the module defining a renamed symbol is missed and one that has the alias for a name is credited |
| Journey.JourneyPlan.BootUp | tools/desktop-journeys/_lib.py:1428-1494 | whatever raises, what a boot records, matches and leaves in the environment: what exactly the callbacks that had to be called do, in order, managed variables as before |
| Journey.BodyIsCalls | tools/desktop-journeys/_lib.py:1463-1494 | factory, entry, setup, phases and teardown are called in this order, each only after those it needs returned, teardown whenever entry did |
| Journey.ScopedByName | tools/desktop-journeys/_lib.py:1332-1336 | during a boot an overridden variable has its override, even when also cleared, a cleared one is unset, others are as before |
| Journey.RestoredByName | tools/desktop-journeys/_lib.py:1339-1344 | afterwards overridden and cleared variables are as before the boot, others as the callbacks left them |
| Journey.JourneyPlan.RunSession | tools/desktop-journeys/_lib.py:1464-1494 | entry, setup, phases and teardown, any of which may raise |
| Journey.JourneyPlan.RunPhase | tools/desktop-journeys/_lib.py:1400-1426 | one result is added and nothing escapes: passed, skipped, blocked or failed if and only if the phase returned, raised the skip, raised the block, or raised anything else |
| Journey.JourneyPlan.Pin | tools/desktop-journeys/_lib.py:1496-1504 | a pinned run keeps and remembers the selected phases |
| Journey.KeptInOrder | tools/desktop-journeys/_lib.py:1496-1504 | selection goes phase by phase and keeps the order |
| Journey.CanonByText | tools/desktop-journeys/_lib.py:1502-1503 | a phase id is compared without its padding and in small letters |
| Journey.JourneyPlan.SkipGroup | tools/desktop-journeys/_lib.py:1506-1516 | phases not in the table yet are marked |
| Journey.OneOutcomeEach | tools/desktop-journeys/_lib.py:1428-1516 | every selected phase gets exactly the outcome it deserves, once and in order, if and only if the phases ran or none was in the table under that label |
| Journey.TableOfRun | tools/desktop-journeys/_lib.py:1428-1516 | the table of any run holds exactly the verdicts of the selected phases that nothing hides, and a label and id exactly when some boot offered them |
| Journey.BootAppendsVerdicts | tools/desktop-journeys/_lib.py:1428-1516 | over a whole run, a boot appends its verdicts, once each and in order, if and only if its phases ran or none of their ids was offered before under its label |
| Journey.ExitCodeMeaning | tools/desktop-journeys/_lib.py:1526-1561 | for any series of boots, when the exit code is 0, 1, 2 and 3, each if and only if |
| Journey.ExitCodeByEndings | tools/desktop-journeys/_lib.py:1400-1561 | the four codes by endings alone: 0 when every pin is declared, something is selected and every phase not hidden ran and returned; 1 when a pin is undeclared or some shown phase or its boot broke; then 2 when one blocked; then 3 |
| Journey.OutcomeByEnding | tools/desktop-journeys/_lib.py:1400-1494 | which outcome a phase deserves, by how factory, entry, setup and the phase ended |
| Journey.ExitCodeIsDeserved | tools/desktop-journeys/_lib.py:1506-1561 | whatever the callbacks do, the code is the one the verdicts deserve if and only if a pinned id is undeclared or no boot has all its selected ids offered before under its label |
| Journey.DeservedUnlessSwallowed | tools/desktop-journeys/_lib.py:1506-1561 | for one run, it is so when no such boot fails or skips as a group |
| Journey.SwallowedBoot | tools/desktop-journeys/_lib.py:1506-1561 | and if one fails while all else passes, the code is 0 and not 1 |
| Journey.SharedLabelHidesAFailedBoot | tools/desktop-journeys/_lib.py:1513-1516 | the smallest such run: a second boot under one label never comes up and the exit code is 0 |
| Journey.RunBoots | tools/desktop-journeys/_lib.py:1428-1561 | any script of boots produces that table, and the exit code told by how its callbacks ended |
| SecretScan.ScanFile | tools/desktop-journeys/_lib.py:1180-1205 | for every division into chunks, a hit if and only if the needle occurs in the file |
| SecretScan.ScanFileKeeping | tools/desktop-journeys/_release_matrix_lib.py:1413-1440 | the same predicate, though a one-byte needle keeps nothing instead of everything |
| SecretScan.ScanFiles | tools/desktop-journeys/_lib.py:1185-1205 | over all files, a hit if and only if some file holds the needle |
| SecretScan.OccursBetween | tools/desktop-journeys/_lib.py:1195-1197 | the needle occurs if and only if the file is something, the needle and something |
| SecretScan.WindowSuffices | tools/desktop-journeys/_lib.py:1195-1201 | a tail one byte shorter than the needle misses no straddling hit |
| EffectLedger.EffectStages | tools/desktop-journeys/_release_matrix_lib.py:1031-1063 | the loop returns the stages of the fold, for exactly the staged ids, each once, in the order of first staging, with the fields of its last staging and last record; it fails if and only if some event breaks the ledger |
| EffectLedger.FoldIsCurrent | tools/desktop-journeys/_release_matrix_lib.py:1031-1063 | each stage is what its last record since its last staging says, under a revision above every other record since |
| EffectLedger.StageIsTaken | tools/desktop-journeys/_release_matrix_lib.py:1040-1062 | field by field: proposal_digest, target_digest and target_ref are those of the last record, executor that of the last staging, and the revision is 1 or that of the last record |
| EffectLedger.FoldFails | tools/desktop-journeys/_release_matrix_lib.py:1031-1063 | the fold fails if and only if a staging of a named effect lacks a digest, the target or the executor, or a revision of a staged effect lacks one or does not raise the revision recorded last |
| EffectLedger.SingleStaging | tools/desktop-journeys/_release_matrix_lib.py:1031-1063 | for an id staged once: its highest recorded revision and the original executor |
| EffectLedger.AssertStageDecision | tools/desktop-journeys/_release_matrix_lib.py:1078-1105 | the check passes if and only if such decisions are all exact and exist, every application carries the revision and follows one, and applications exist as expected |
| EffectLedger.ConfirmedIsDemanded | tools/desktop-journeys/_release_matrix_lib.py:1078-1105 | the check demands, by fields: each such decision carries the revision and both digests, there is one, each application carries the revision and follows one, and there are applications as expected |
| EffectLedger.AppliedAsDecided | tools/desktop-journeys/_release_matrix_lib.py:1031-1105 | fold and check together: every application carries the revision of its effect's last record and follows a decision with that revision and the two digests of that record |
| AuditVisitor.FunctionAuditChecker.Visit | tools/check_audit_in_transaction.py:78-125 | every visit leaves the depth unchanged and reports what the tree says at that depth |
| AuditVisitor.CheckFile | tools/check_audit_in_transaction.py:128-146 | one checker per function, nested ones included; a line is reported for a function if and only if an open way in its body leads to an unguarded write on it |
| AuditVisitor.ReportsExactly | tools/check_audit_in_transaction.py:128-146 | the report holds a function and a line if and only if a function of that name leaves an unguarded write on that line open |
| AuditVisitor.OneWrite | tools/check_audit_in_transaction.py:106-125 | a single write in a function is reported unless it passes its connection on |
| AuditVisitor.AcceptedIffCovered | tools/check_audit_in_transaction.py:78-146 | a file is accepted if and only if every unguarded audit write outside with-items has a transaction block between it and the innermost function whose body holds it |
| AuditVisitor.NestedHelperIsNotCovered | tools/check_audit_in_transaction.py:139-145 | a helper defined inside a transaction inherits no cover |
| AuthorityMap.GroupDecodes | tools/check_f_series_contract_authority_map.py:464-591 | no error on a raw group means that it spells a valid one: known scope, kind and authorities, primary, supporting and consumers pairwise disjoint |
| AuthorityMap.GroupEncodes | tools/check_f_series_contract_authority_map.py:464-591 | and a valid group has no errors |
| AuthorityMap.CleanIsWritten | tools/check_f_series_contract_authority_map.py:464-591 | a raw group has no errors if and only if it is a valid group written with exactly the eight fields |
| AuthorityMap.IdByText | tools/check_f_series_contract_authority_map.py:582-591 | a group id is the scope in small letters, the kind and the primary authority, dotted, and possibly a dot and more |
| AuthorityMap.AscendingByText | tools/check_f_series_contract_authority_map.py:431-452 | sorted means that of two names the earlier is a prefix or lower where they first differ |
| AuthorityMap.AuthoritiesCheck | tools/check_f_series_contract_authority_map.py:431-452 | an authority list passes if and only if it is known, sorted, distinct and without the primary |
| AuthorityMap.InventoryFromGroups | tools/check_f_series_contract_authority_map.py:455-593 | the loop raises exactly when a value cannot be hashed or a common authority cannot be sorted, and else collects what the groups own; no errors if and only if every group is clean and none clash |
| AuthorityMap.ClaimNames | tools/check_f_series_contract_authority_map.py:521-533 | duplicate ownership is reported across groups and within one |
| AuthorityMap.InventoryErrors | tools/check_f_series_contract_authority_map.py:820-830 | no errors if and only if the inventory is the expected one |
| AuthorityMap.ValidateGroups | tools/check_f_series_contract_authority_map.py:813-830 | no errors if and only if the groups spell a map in which every expected contract has exactly one owner and nothing else is owned |
| ManifestLock.ParseManifest | tools/check_migration_manifest.py:68-81 | the line loop parses as specified, failing if and only if some line is malformed |
| ManifestLock.LineByText | tools/check_migration_manifest.py:70-80 | padding aside, a line is nothing when blank or starting with `#`, an entry split at its first ` sha256=`, and malformed without one |
| ManifestLock.ParseGivesLast | tools/check_migration_manifest.py:68-81 | an id some line gives has the digest of the last such line |
| ManifestLock.ParseGivesNone | tools/check_migration_manifest.py:68-81 | and no other id is added |
| ManifestLock.LineRoundTrip | tools/check_migration_manifest.py:68-93 | a rendered entry parses back to itself if and only if it is lockable |
| ManifestLock.ManifestRoundTrip | tools/check_migration_manifest.py:68-93 | a rendered manifest parses back to the same map if and only if every id and digest survives |
| ManifestLock.CheckDetectsDrift | tools/check_migration_manifest.py:114-146 | a lock written for one state passes for another if and only if they list the same migrations and checksums |
| ManifestLock.MigrationsDir.CheckOrWrite | tools/check_migration_manifest.py:114-146 | status and lock file for a missing directory, a write, and a check |
| ManifestLock.MigrationsDir.WriteThenCheck | tools/check_migration_manifest.py:114-146 | a check right after a write returns 0 if and only if every entry survives |

## Left out

- CssSheet.SheetReportsItsTree: the line number and the waiver reason are left as the offset and the comments they are computed from; the class-bearing test is a parameter.
- CssRules.SheetReports: a bare slash in a head or a statement, and braces that do not balance; `CssRules.TokenOfChar` and `CssSheet.EveryTextReportsATree` cover them.
- RouteTable.Extract: the order in which the resulting routes are sorted, which of several routers that equally many delegations lead to provides a route (it depends on the order of a Python set), or which of several routers constructed in one function, and the scan of Python sources that produces the scopes.
- Facades.IsCandidate: parsing imports, the entry-point names and the main guard, and the counts in the report.
- RoutePatterns.OwnCallerIsAccepted: the regular expression that finds path-shaped substrings in source files is not modelled; the theorem starts from the substring.
- Reconciler.ApplyConverges: a server that fails a request; the listing order is stable, ids are fresh, a server keeps the name of a ruleset that cannot be compared or whose name is no text, and declared names are distinct, as loading the configuration guarantees.
- Rulesets.NormalizeIdempotent: JSON numbers are integers; Python's `str` and `int` are arbitrary parameters, and comparing dumped lines is comparing values.
- Journey.ExitCodeMeaning: timing, printed output and the session's phase prefix; phase ids are folded in ASCII only; reading the pinned ids from the environment variable.
- SecretScan.ScanFiles: walking the roots, symbolic links and files that vanish while they are read.
- EffectLedger.AssertStageDecision: JSON booleans and floats that Python would compare equal to an integer revision.
- AuditVisitor.CheckFile: which calls are audit calls, pass a connection or open a transaction is given with the tree.
- AuthorityMap.ValidateGroups: the document-level checks around the groups (schema version, paths, digests, constraints, source sections) are flat comparisons and are not modelled; error texts are abbreviated.
- ManifestLock.ManifestRoundTrip: the three fixed header lines are any list of comment lines; file hashing is not modelled.
- Replaying an event log in sequence order, the baseline files of the gates, and the reports the tools print: only easy members.
- The remaining gates under `tools/` (dark wiring, route scopes, service boundaries and the like): set differences and single-pass filters.
- The desktop journeys themselves, the driver session, and everything outside `tools/`.
