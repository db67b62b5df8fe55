# Verified models of the Tcl 9.0.4 regular-expression engine and its neighbours

Dafny models of six parts of `contrib/tcl9.0.4/generic`, with the algorithms as they are there: classes and arrays
where the C updates structures in place, loops where it loops, and every method proved against a specification of
what it computes.

* **The regex compiler.** `Nfa` is the automaton with its state chain and its ordered in- and out-chains, and the
  sort-merge branches of `moveins()`, `copyins()`, `mergeins()`, `moveouts()` and `copyouts()`. `Words` gives an
  automaton the words of its paths, `Runs` the pieces of text it matches, constraints included, and `Readings` shows
  that the words determine the texts. `FixEmpties`, `ConstraintLoops`, `Breaking`, `Pulling`/`Pullback`,
  `Pushing`/`Pushfwd`, `Anchors` and `Cleanup` are the steps of `optimize()`, `Clones` the reason why a loop of
  constraints may be broken, `Potential` why pulling and pushing come to an end, and `Optimize` the whole of
  `pullback()`, `pushfwd()` and `optimize()`; `Fragments`, `SubNfa` and `Repeat` the expansion of x{m,n}; `MakeSearch`
  and `Compact` the search automaton and the compacted form. `Parsing` is the subexpression tree that `parse()`
  builds, with its flags; `Matching` says what a regex matches, groups and all, without a tree, and that the tree has
  exactly these matches; `Examples` are three regexes with their trees, on the automata of `Rows`. `Copies` makes the
  automaton of a node, `EmptyMatches` says what REG_UEMPTYMATCH means, and `Compile` leads from the parsed automaton
  to what `exec()` reports.
* **Colours.** `ColorTree`, `Colors` and `ColorMap`: the four-level map with its shared blocks, the open subcolours, and
  what the coloured arcs stand for at every moment.
* **The regex executor.** `Cnfa` says what plain subset simulation computes. `LazyDfa` is the bounded cache of state
  sets that must compute the same, `Search` is `simpleFind()`. `Subre` says what a division of a substring among the
  nodes of the subexpression tree is, `Iterations` treats the search for endpoints on values, `Dissect` holds
  `cdissect()` and its six helpers, `Refusals` shows that their contracts settle every outcome, `StaleCaptures` what failed
  attempts leave behind, `Exec` joins search and dissection, and `Complicated` is the search for regexes with back
  references. A text is a sequence of colours; lookahead constraints are an oracle of number and position.
* **The bytecode assembler.** `Blocks` are basic blocks and the walks control can take through them; `Catches` and
  `StackCheck` are the two recursive passes, `Relocation` the code motion for grown jumps.
* **The allocator.** `Alloc`: free lists per power of two, blocks known by address, contents of memory as bytes.
* **Asynchronous handlers.** `Async`: a state machine whose steps are the critical sections, and the doubly linked list
  that refines it.

In all of them memory never runs out unless a parameter says so (`memory`, `chunk`), and sizes are those of a 64-bit
machine.

## Findings

What a reader might expect of the code and does not hold of it, each with the exact condition.

* `caltdissect()` (`contrib/tcl9.0.4/generic/regexec.c:950-981`) does not clear what a failed alternative captured. On
  "ab" the regex `(.)\1|..` matches by its second alternative and reports group 1 as "a" (`StaleCaptures.StaleOnAb`). A
  group of an untaken alternative is reported if and only if an earlier alternative was tried and leaves it behind
  (`StaleCaptures.StaleCapture`, which reads the condition off the automata wherever it is determined by them); it
  cannot happen when every alternative but the last is free of groups or of back references
  (`StaleCaptures.TidyIsClean`).
* `complicatedFindLoop()` (`contrib/tcl9.0.4/generic/regexec.c:476-534`) starts each round where the match found in the
  round before ended, which is no further on if that match was empty. It goes on for ever if and only if some empty string
  is accepted by the automaton short of the end of the text, and it and everything before it is refused by the
  dissection (`Complicated.ComplicatedFindLoop`); so for `()(?:\1){2}` on "ab" (`Examples.NoughtEndless`). It ends
  wherever the automaton accepts no empty string short of the end, or nothing is ever refused (`Complicated.EndsAlways`).
* `citerdissect()` and `creviterdissect()` say they "will also consider zero-length sub-matches in order to find enough
  matches" (`contrib/tcl9.0.4/generic/regexec.c:1021-1026`). An empty piece is considered only where the pieces still
  required are no fewer than the characters left, and never once the end has been reached with too few
  (`contrib/tcl9.0.4/generic/regexec.c:1088-1106`), so two or more pieces are never found in the empty string
  (`Refusals.NothingTwice`, `Examples.NoughtRefused`). Without back references below it an iteration is refused exactly when
  there is no division of the kind considered (`Refusals.IterationExactly`); one is there whenever the string can be
  divided at all if min is at most 1 or no piece can be empty (`Refusals.WorthWhenever`).
* `TclpRealloc()` adds to the requested size without looking for wrap-around
  (`contrib/tcl9.0.4/generic/tclAlloc.c:551-552, 588-592`), which `TclpAlloc()` guards against. A success has room for
  the request if and only if it is below 2^64 - 8 for a block of the first bucket, below 2^64 - 32 for a block the
  system manages (`Alloc.Allocator.Realloc`, `Alloc.KeptExactly`, `Alloc.BigAsked`, `Alloc.FirstWraps`); in all other
  buckets sizes that wrap around are refused.
* `CheckStack()` posts its maximum before `StackCheckExit()` pushes a null result
  (`contrib/tcl9.0.4/generic/tclAssembly.c:3333-3345`). The maximum covers that push if and only if some instruction on
  some walk raises the depth above 0 (`StackCheck.NullCovered`; it does not for empty code, `StackCheck.NullNotCounted`).
  The shortfall is in this record only: the "done" instruction emitted afterwards (`tclAssembly.c:907`) raises the
  compiler's own maximum.
* `TclFinalizeAsync()` (`contrib/tcl9.0.4/generic/tclAsync.c:93-98`) leaves its loop when the list becomes empty, before
  the handler just taken out has been queued for freeing. All handlers of the thread are freed if and only if the list
  was empty or another thread still has one (`Async.FinalizeFreesAll`).
* REG_UEMPTYMATCH, "RE can match empty string" (`contrib/tcl9.0.4/tests/reg.test:90`), looks at two arcs only
  (`contrib/tcl9.0.4/generic/regc_nfa.c:2787-2793`). It is set if and only if some text in which every lookaround
  constraint fails has an empty match (`EmptyMatches.EmptyMeans`), so not for `(?=b)`, which matches the empty string before
  every b (`EmptyMatches.LookaroundEmpty`). It tells whether the empty string can be matched if and only if, where it is
  possible at all, it is possible without a lookaround constraint (`EmptyMatches.FlagExactly`); so it does for every regex
  without them (`EmptyMatches.FlagRight`).

## Model

| member | source | states |
|---|---|---|
| `Nfa.Nfa.NewState` | contrib/tcl9.0.4/generic/regc_nfa.c:121-165 | A state with a number never used before goes to the end of the state chain, without arcs; nothing else changes. |
| `Nfa.Nfa.CreateArc` | contrib/tcl9.0.4/generic/regc_nfa.c:307-353 | The arc goes to the front of its source's out-chain and of its target's in-chain; every chain still lists exactly the arcs of its state, each once. |
| `Nfa.Nfa.NewArc` | contrib/tcl9.0.4/generic/regc_nfa.c:270-299 | Never creates a duplicate: an arc that is there already changes nothing, a new one goes to the front of both chains. |
| `Nfa.Nfa.FreeArc` | contrib/tcl9.0.4/generic/regc_nfa.c:415-485 | The arc leaves both of its chains, which keep their order otherwise. |
| `Nfa.Nfa.ChangeArcTarget` | contrib/tcl9.0.4/generic/regc_nfa.c:495-529 | The arc leads to the new target instead; all chains stay exact. |
| `Nfa.Nfa.DropState` | contrib/tcl9.0.4/generic/regc_nfa.c:189-203 | The state goes with exactly the arcs that enter or leave it. |
| `Nfa.Nfa.SortIns` | contrib/tcl9.0.4/generic/regc_nfa.c:588-629 | The in-chain is rearranged into the order of sortins_cmp(), which is strict on one state's arcs. |
| `Nfa.ChainStrict` | contrib/tcl9.0.4/generic/regc_nfa.c:631-659 | A sorted chain of one state is strictly sorted: it holds no duplicate. |
| `Nfa.NoTwin` | contrib/tcl9.0.4/generic/regc_nfa.c:800-837 | When the merge finds the other chain past an arc, no arc of the target has its label and far end, so createarc() may be used unchecked. |
| `Nfa.Nfa.MoveIns` | contrib/tcl9.0.4/generic/regc_nfa.c:761-842 | Whichever branch runs, singly or by sort and merge, every in-arc of the one state has become an in-arc of the other, a duplicate vanishing, and no other arc has changed. |
| `Nfa.Nfa.CopyIns` | contrib/tcl9.0.4/generic/regc_nfa.c:848-918 | The same for copies: the arc set gains exactly the in-arcs of o rehung to n, without a duplicate, whichever branch runs. |
| `Nfa.Nfa.MoveOuts` | contrib/tcl9.0.4/generic/regc_nfa.c:1021-1099 | Both branches leave the same arc set: all out-arcs of o have become out-arcs of n. |
| `Nfa.Nfa.CopyOuts` | contrib/tcl9.0.4/generic/regc_nfa.c:1105-1175 | Both branches leave the same arc set: copies of all out-arcs of o at n. |
| `Nfa.Nfa.Dedup` | contrib/tcl9.0.4/generic/regc_nfa.c:956-977 | What is left of the sorted array is strictly sorted and has an arc equal, but for the target, to each one given. |
| `Nfa.Nfa.MergeIns` | contrib/tcl9.0.4/generic/regc_nfa.c:926-1015 | s gains exactly the arcs of the array, rehung; its old in-arcs end up behind the new ones, which is what fixempties() relies on; other in-chains are untouched. |
| `FixEmpties.FoldForwardSameWords` | contrib/tcl9.0.4/generic/regc_nfa.c:1882-1902 | Folding a state whose only out-arc is EMPTY into its successor changes no word between states other than it. |
| `FixEmpties.FoldBackSameWords` | contrib/tcl9.0.4/generic/regc_nfa.c:1904-1924 | The same for a state whose only in-arc is EMPTY, and its predecessor. |
| `FixEmpties.EmptyReachable` | contrib/tcl9.0.4/generic/regc_nfa.c:2098-2115 | The tmp pointers chain up exactly the newly found states that reach s by EMPTY arcs, ending at s and leading on to what was found before. |
| `FixEmpties.Gather` | contrib/tcl9.0.4/generic/regc_nfa.c:2014-2029 | Collects exactly the original non-EMPTY in-arcs of states that reach s by EMPTY arcs, and clears every tmp pointer. |
| `FixEmpties.TargetsUnchanged` | contrib/tcl9.0.4/generic/regc_nfa.c:2008-2013 | Pushing arcs never turns a state into a target that was none: whether a state has a non-EMPTY out-arc does not change meanwhile. |
| `FixEmpties.PushSameWords` | contrib/tcl9.0.4/generic/regc_nfa.c:1926-2063 | Once every target has gained its pushed arcs, the words between pre and post are spelled without any EMPTY arc. |
| `FixEmpties.FixEmpties` | contrib/tcl9.0.4/generic/regc_nfa.c:1865-2081 | Between pre and post exactly the same words of non-EMPTY labels are spelled before and after, no EMPTY arc is left, the tmp pointers are clear; and with ends as newnfa() leaves them, which they keep, the same pieces of every text are matched. |
| `ConstraintLoops.SelfLoopIdle` | contrib/tcl9.0.4/generic/regc_nfa.c:2169-2175 | Every run of an automaton is matched by one that takes no constraint arc from a state to itself. |
| `ConstraintLoops.DropSelfLoops` | contrib/tcl9.0.4/generic/regc_nfa.c:2176-2200 | No constraint arc leads from a state to itself any more, the same pieces of every text are matched, and without the flag no constraint arc is left at all. |
| `ConstraintLoops.LoopFound` | contrib/tcl9.0.4/generic/regc_nfa.c:2272-2278 | A marked state that is met again lies on a loop of constraint arcs along the tmp pointers. |
| `ConstraintLoops.FindConstraintLoop` | contrib/tcl9.0.4/generic/regc_nfa.c:2261-2300 | Terminates; reports only real loops along tmp pointers; otherwise s is settled: all that constraint arcs lead to from it was settled before it. |
| `ConstraintLoops.LoopUnranked` | contrib/tcl9.0.4/generic/regc_nfa.c:2272-2299 | An automaton with a reported loop has no ranking of its states in which constraint arcs rise. |
| `ConstraintLoops.SearchLoops` | contrib/tcl9.0.4/generic/regc_nfa.c:2209-2214 | The search ends without a loop exactly when constraint arcs can be ranked, that is, when there is none. |
| `Clones.RunStands` | contrib/tcl9.0.4/generic/regc_nfa.c:2302-2346 | Every run of the automaton with the clones is a run of the one before: at a clone, to every state merged into it, since the labels taken as checked hold wherever the clone is reached. |
| `Clones.RunKept` | contrib/tcl9.0.4/generic/regc_nfa.c:2302-2346 | Every run of the automaton before is kept, up to its reaching a state that has been merged into a clone whose constraints hold; back-arcs and states merged before need not be followed. |
| `Clones.BrokenTexts` | contrib/tcl9.0.4/generic/regc_nfa.c:2302-2346 | Breaking a loop, whether the clone is kept or turns out useless, changes no match of any text. |
| `Clones.LoopsFewer` | contrib/tcl9.0.4/generic/regc_nfa.c:2302-2346 | No constraint arc is on a loop that was on none before, and the redirected ones are on none any more: the convergence the comment claims. |
| `Breaking.Implied` | contrib/tcl9.0.4/generic/regc_nfa.c:2598-2611 | True exactly when the label is that of the reference arc or of the only in-arc of the clone or of one above it. |
| `Breaking.CloneInto` | contrib/tcl9.0.4/generic/regc_nfa.c:2533-2658 | Every out-arc of the state and of the states merged with it is dealt with: copied, made to lead to the one child of its target, or left because its target is off limits; merged are only states that need no further constraint, and a child that is merged after all is dropped. |
| `Breaking.CloneTree` | contrib/tcl9.0.4/generic/regc_nfa.c:2489-2682 | Terminates; the clone and all below it are complete, their numbers rise from parent to child, the two assertions about the donemap hold, no arc of another state has changed, and all tmp pointers are as before. |
| `Breaking.SoleLink` | contrib/tcl9.0.4/generic/regc_nfa.c:2372-2383 | The one constraint arc from the state to the next of the loop, exactly when there is one only. |
| `Breaking.PickStep` | contrib/tcl9.0.4/generic/regc_nfa.c:2366-2397 | A real step of the loop, and the label of its arc only if the step has no other constraint arc. |
| `Breaking.Redirect` | contrib/tcl9.0.4/generic/regc_nfa.c:2438-2449 | Exactly the constraint arcs of the step lead to the clone, or are gone. |
| `Breaking.BreakConstraintLoop` | contrib/tcl9.0.4/generic/regc_nfa.c:2349-2450 | The same pieces of every text are matched, fewer arcs lie on loops, all tmp pointers are clear, and neither self-loops nor labels nor arcs at the ends are new. |
| `Breaking.FixConstraintLoops` | contrib/tcl9.0.4/generic/regc_nfa.c:2159-2240 | On every automaton without EMPTY arcs: terminates, leaves constraint arcs that can be ranked, so no loop of them, matches the same pieces of every text, and leaves all tmp pointers clear. |
| `ConstraintLoops.ReadyToPull` | contrib/tcl9.0.4/generic/regc_nfa.c:2151-2158 | The ranking is the precondition pulling and pushing ask for. |
| `Pulling.CombineBack` | contrib/tcl9.0.4/generic/regc_nfa.c:1808-1859 | combine() is right about back constraints: INCOMPATIBLE means the constraint fails after the arc, SATISFIED that it holds, COMPATIBLE that it may be tested before it. |
| `Pulling.CombineFwd` | contrib/tcl9.0.4/generic/regc_nfa.c:1808-1859 | The same for forward constraints and the arcs after them. |
| `Pulling.PullKeepsTexts` | contrib/tcl9.0.4/generic/regc_nfa.c:1531-1620 | After a pull, with shared or fresh intermediate states, exactly the same pieces of every text are matched. |
| `Pulling.PullKeepsRanked` | contrib/tcl9.0.4/generic/regc_nfa.c:1531-1620 | A pull makes no loop of constraint arcs: there is still a ranking. |
| `Pullback.Pull` | contrib/tcl9.0.4/generic/regc_nfa.c:1531-1620 | Refuses only constraints that leave pre; otherwise leaves behind exactly the arcs of a pull, with intermediate states that are fresh or can be shared. |
| `Pullback.PullState` | contrib/tcl9.0.4/generic/regc_nfa.c:1465-1486 | Afterwards no back constraint leaves s (unless s is pre), every text that was matched is matched and no other, the ranking survives, tmp is clear, other states stay in the chain, and progress has spent of the budget. |
| `Pushing.PushKeepsTexts` | contrib/tcl9.0.4/generic/regc_nfa.c:1710-1799 | After a push exactly the same pieces of every text are matched. |
| `Pushfwd.Push` | contrib/tcl9.0.4/generic/regc_nfa.c:1710-1799 | Refuses only constraints that enter post; otherwise leaves behind exactly the arcs of a push. |
| `Pushfwd.PushState` | contrib/tcl9.0.4/generic/regc_nfa.c:1645-1665 | Afterwards no forward constraint enters s (unless s is post), the same texts are matched, the ranking survives, tmp is clear, other states stay in the chain, and progress has spent of the budget of the reversed automaton. |
| `Anchors.PlainAnchors` | contrib/tcl9.0.4/generic/regc_nfa.c:1502-1509 | Every '^' arc of pre ('$' arc of post) has become a PLAIN arc of its pseudocolour, no other arc has changed, and the same pieces of every text are matched. |
| `SubNfa.DupNfa` | contrib/tcl9.0.4/generic/regc_nfa.c:1272-1291 | Between from and to there is a copy of what can be reached from start before stop, each inner state having a new state of its own; nothing else is added, and all tmp pointers are cleared. |
| `SubNfa.DupTraverse` | contrib/tcl9.0.4/generic/regc_nfa.c:1297-1336 | Terminates on every graph; adds exactly the images of the arcs leaving the states it has marked. |
| `SubNfa.ClearTraverse` | contrib/tcl9.0.4/generic/regc_nfa.c:1342-1357 | No cleared state leads on to one that has not been cleared. |
| `SubNfa.DelSub` | contrib/tcl9.0.4/generic/regc_nfa.c:1205-1221 | Removes exactly the arcs that can be reached from lp before rp, frees only inner states, and leaves rp without in-arcs exactly when all of them could be reached. |
| `SubNfa.DelTraverse` | contrib/tcl9.0.4/generic/regc_nfa.c:1228-1262 | Its assertions hold: the state is not freed, is still reached by the arc it was entered by, and has no out-arcs left. |
| `Fragments.ImageLang` | contrib/tcl9.0.4/generic/regc_nfa.c:1272-1336 | An isomorphic copy of a fragment spells the same words. |
| `Fragments.LoopLang` | contrib/tcl9.0.4/generic/regcomp.c:1373-1402 | A fragment looped around itself spells x*; with two ends of its own, x+. |
| `Fragments.ChainedLang` | contrib/tcl9.0.4/generic/regcomp.c:1383-1418 | One fragment after another spells the concatenations of their words. |
| `Fragments.TimesLast` | contrib/tcl9.0.4/generic/regcomp.c:1383-1418 | x{m,n} is x{m-1,n-1}x, for all bounds. |
| `Repeat.Repeat` | contrib/tcl9.0.4/generic/regcomp.c:1344-1423 | Fails exactly when m exceeds n; else the fragment spells exactly the concatenations of between m and n of its former words (no upper bound for DUPINF), new states apart nothing outside it has changed, and it terminates. |
| `Repeat.AtMostOnce` | contrib/tcl9.0.4/generic/regcomp.c:1361-1367 | x{0,0} spells the empty word, x{0,1} that and x, x{1,1} x. |
| `Repeat.LoopAround` | contrib/tcl9.0.4/generic/regcomp.c:1373-1402 | x{0,} and x{1,}, by moving both ends of the fragment to new states. |
| `Repeat.Quantify` | contrib/tcl9.0.4/generic/regcomp.c:1210-1256 | Whichever form is chosen for a messy atom, prefix or iteration node, m to n repetitions of it lead from s to the state returned, and the atom itself is untouched. |
| `MakeSearch.Lift` | contrib/tcl9.0.4/generic/regcomp.c:551-639 | Every run of the original automaton, begun wherever pre can wait, is a run of the search automaton, in a progress state after its first symbol. |
| `MakeSearch.Lower` | contrib/tcl9.0.4/generic/regcomp.c:551-639 | Every run of the search automaton that has left pre is a run of the original one begun at some symbol. |
| `MakeSearch.MakeSearch` | contrib/tcl9.0.4/generic/regcomp.c:551-639 | Adds the prefix loops unless all arcs of pre are begin-of-string arcs, and splits exactly the states entered both from pre and from elsewhere; tmp pointers are clear. |
| `Compact.Compact` | contrib/tcl9.0.4/generic/regc_nfa.c:2801-2889 | Succeeds exactly when only PLAIN and LACON arcs are left; the result has exactly the automaton's arcs and is one the executor can run. |
| `Compact.SimulationIsPaths` | contrib/tcl9.0.4/generic/rege_dfa.c:482-564 | What subset simulation of the compacted form reports after each symbol are exactly the states at the end of the automaton's paths. |
| `ColorTree.OnePath` | contrib/tcl9.0.4/generic/regc_color.c:154-207 | A block that is not shared is reached by the characters of one subtree only. |
| `ColorTree.Store` | contrib/tcl9.0.4/generic/regc_color.c:202-206 | Writing into a block that is not shared changes the colour of one character. |
| `ColorTree.Reached` | contrib/tcl9.0.4/generic/regc_color.c:154-207 | Every colour block that hangs in the tree is on the path of some character. |
| `ColorMap.Colormap.constructor` | contrib/tcl9.0.4/generic/regc_color.c:42-87 | All characters are WHITE, and WHITE counts them all. |
| `ColorMap.Colormap.GetColor` | contrib/tcl9.0.4/generic/regguts.h:185-198 | Four lookups give the colour the flat map has for the character. |
| `ColorMap.Colormap.SetColor` | contrib/tcl9.0.4/generic/regc_color.c:154-207 | Returns the old colour and changes that of exactly one character; no fill block and no solid block is ever written into. |
| `ColorMap.Colormap.NewColor` | contrib/tcl9.0.4/generic/regc_color.c:229-293 | Hands out a colour that was not in use, from the free chain or above the highest one; fails exactly when all are in use. |
| `ColorMap.Colormap.TrimMax` | contrib/tcl9.0.4/generic/regc_color.c:321-347 | max comes down to the highest colour in use, and the free chain holds exactly the free colours below it. |
| `ColorMap.Colormap.FreeColor` | contrib/tcl9.0.4/generic/regc_color.c:299-352 | The colour goes out of use with its solid block, to which no pointer leads any more; no character changes colour, no arc its meaning, and the free chain stays exact. |
| `ColorMap.BlockUnhung` | contrib/tcl9.0.4/generic/regc_color.c:314-319 | A colour with no characters left has no solid block in the tree, because its count is right. |
| `ColorMap.Colormap.PseudoColor` | contrib/tcl9.0.4/generic/regc_color.c:358-371 | A new colour without characters; the real colours are the same as before. |
| `ColorMap.Colormap.NewSub` | contrib/tcl9.0.4/generic/regc_color.c:405-428 | The open subcolour there is; or the colour itself if it has one character; or a new open subcolour without characters. |
| `ColorMap.Colormap.SubColor` | contrib/tcl9.0.4/generic/regc_color.c:377-399 | The character goes over to the subcolour, is counted there, and no other changes colour. |
| `ColorMap.Colormap.SubBlock` | contrib/tcl9.0.4/generic/regc_color.c:482-581 | Exactly the 256 characters of the block gain a way from lp to rp, whether the block was fill, solid or mixed; no arc loses or gains any other character, and no other character changes colour. |
| `ColorMap.Colormap.SubRange` | contrib/tcl9.0.4/generic/regc_color.c:435-476 | Exactly the characters from first to last gain a way from lp to rp, by single characters and whole blocks. |
| `Colors.ShiftCounts` | contrib/tcl9.0.4/generic/regc_color.c:395-397 | nchrs stays the number of characters of every real colour when characters go over to a subcolour. |
| `Colors.ShiftMeans` | contrib/tcl9.0.4/generic/regc_color.c:377-428 | When characters go over to a subcolour that has its arc, the arcs of every other colour let the same characters pass, those of the parent standing for both. |
| `Colors.NotEmpty` | contrib/tcl9.0.4/generic/regc_color.c:609-625 | A colour whose count is zero colours no character. |
| `Colors.PromotedMeans` | contrib/tcl9.0.4/generic/regc_color.c:609-640 | Promoting one subcolour, whether its parent is empty or not, changes what no arcs between any two states let pass. |
| `ColorMap.Colormap.OkColors` | contrib/tcl9.0.4/generic/regc_color.c:587-642 | No colour has an open subcolour any more, no character changes colour, and for every type and pair of states the coloured arcs let exactly the same characters pass as before. |
| `Cnfa.DeadForever` | contrib/tcl9.0.4/generic/rege_dfa.c:102-114 | Once no state is left an attempt never matches again, so the loop may stop. |
| `Cnfa.ClosureLeast` | contrib/tcl9.0.4/generic/rege_dfa.c:535-564 | The closure over LACON arcs is the least set closed under those satisfied. |
| `LazyDfa.Dfa.Successors` | contrib/tcl9.0.4/generic/rege_dfa.c:512-564 | The work vector holds exactly the plain successors of the set, closed under satisfied lookahead constraints, and the three flags tell the truth about it. |
| `LazyDfa.Dfa.Miss` | contrib/tcl9.0.4/generic/rege_dfa.c:482-606 | The entry returned is for exactly the successor set; nothing in use is disturbed, and what an evicted entry recorded is still remembered. |
| `LazyDfa.Dfa.CacheArc` | contrib/tcl9.0.4/generic/rege_dfa.c:597-604 | The one transition is memoised, and linked on the target's chain of in-arcs. |
| `LazyDfa.Dfa.CutInarcs` | contrib/tcl9.0.4/generic/rege_dfa.c:665-673 | Exactly the memoised transitions into the entry are forgotten. |
| `LazyDfa.Dfa.CutOutarcs` | contrib/tcl9.0.4/generic/rege_dfa.c:679-699 | Exactly the memoised transitions out of the entry are forgotten, and the in-arc chains of their targets stay exact. |
| `LazyDfa.Dfa.GetVacantSS` | contrib/tcl9.0.4/generic/rege_dfa.c:646-720 | No memoised transition enters or leaves the entry handed out, all others are kept, and its success and no-progress positions go to lastpost and lastnopr. |
| `LazyDfa.Dfa.PickNextSS` | contrib/tcl9.0.4/generic/rege_dfa.c:726-798 | An unused entry as long as there is one; then an entry that may be replaced, failing only when there is none. |
| `LazyDfa.Pigeonhole` | contrib/tcl9.0.4/generic/rege_dfa.c:768-788 | Entries last seen at distinct positions of a window are no more than the window is long. |
| `LazyDfa.Dfa.VictimExists` | contrib/tcl9.0.4/generic/rege_dfa.c:726-798 | With seven entries or more some entry other than the starter may always be replaced. |
| `LazyDfa.FewSets` | contrib/tcl9.0.4/generic/rege_dfa.c:768-788 | Of the sets of states other than pre of an automaton with two or three states, all with pre or all without, at most one or three are different: fewer than the cache of six has entries. |
| `LazyDfa.SomeUnseen` | contrib/tcl9.0.4/generic/rege_dfa.c:726-798 | In the full cache of an automaton with two or three states some entry has not been seen in the present attempt, if attempts never come back to pre or pre loops on every symbol. |
| `LazyDfa.Dfa.SomeVictim` | contrib/tcl9.0.4/generic/rege_dfa.c:726-798 | Whatever the size of the cache, an entry may be replaced. |
| `LazyDfa.RememberedGrows` | contrib/tcl9.0.4/generic/rege_dfa.c:705-717 | Eviction forgets no success and no no-progress position. |
| `LazyDfa.LastSuccessIsLongest` | contrib/tcl9.0.4/generic/rege_dfa.c:141-156 | The latest success remembered by any entry or by lastpost is the end of the longest match. |
| `LazyDfa.Dfa.LastCold` | contrib/tcl9.0.4/generic/rege_dfa.c:288-306 | Returns the last position at which all states were no-progress ones, or the start. |
| `LazyDfa.Dfa.Longest` | contrib/tcl9.0.4/generic/rege_dfa.c:37-157 | For every cache size and every state the cache was left in, returns the greatest end of a match within the bounds by plain subset simulation, and hitstop exactly when more text could matter; it never runs out of entries with seven or more of them, nor with fewer when attempts never come back to pre or pre loops on every symbol, as in all automata that are compiled. |
| `LazyDfa.Dfa.Shortest` | contrib/tcl9.0.4/generic/rege_dfa.c:164-282 | The same for the least end at or after min, with the cold point of the attempt. |
| `Search.SearchMatches` | contrib/tcl9.0.4/generic/regexec.c:330-348 | Begun anywhere, the search automaton matches up to e exactly when the original one matches from some start at or after that up to e. |
| `Search.ColdMeansOver` | contrib/tcl9.0.4/generic/regexec.c:334-361 | Once the search automaton is in no-progress states only, every attempt begun since it set out is over. |
| `Search.ColdIsQuiet` | contrib/tcl9.0.4/generic/regexec.c:334-348 | The search automaton is in no-progress states only if and only if no attempt has gone on from the first state it came to. |
| `Search.NothingBeforeOpen` | contrib/tcl9.0.4/generic/regexec.c:334-361 | No match starts before the cold point or ends before the end the search found, and some match ends there. |
| `Search.NothingAtAll` | contrib/tcl9.0.4/generic/regexec.c:334-349 | When the search automaton finds nothing there is no match, and no attempt begun before its cold point outlives the string. |
| `Search.OwnMatches` | contrib/tcl9.0.4/generic/regexec.c:362-383 | The compacted original automaton finds what the search automaton was made to find. |
| `Search.SearchSteady` | contrib/tcl9.0.4/generic/regcomp.c:557-583 | In the search automaton pre loops on every symbol of a text, or nothing enters it. |
| `Search.TryStarts` | contrib/tcl9.0.4/generic/regexec.c:365-383 | The loop over the starts always finds one: the "search RE succeeded so loop should" assertion never fails; the start is the least of any match. |
| `Search.SimpleFind` | contrib/tcl9.0.4/generic/regexec.c:312-411 | NoMatch exactly when nothing matches; otherwise the least start of any match and the preferred end from there; never for want of cache entries does it fail. rm_extend is exactly the last position where no attempt had gone on or, once a match is located, the first start from the cold point on whose attempt outlives the string, else the end of the string; every attempt more text could complete begins at it or later. |
| `Exec.SimpleFindAll` | contrib/tcl9.0.4/generic/regexec.c:312-411 | Search and dissection together: a match is found exactly when there is one, the leftmost with its preferred end, left without place exactly when none is asked for, and captures that divide it; a division fails only where every choice there was is refused, never for a complete tree, and the caches never run out. |
| `Complicated.TryEnds` | contrib/tcl9.0.4/generic/regexec.c:488-532 | All ends from one start, the preferred first: the first whose piece can be divided, or all are refused. |
| `Complicated.TryRound` | contrib/tcl9.0.4/generic/regexec.c:478-533 | One round: the first pair of start and end that can be divided, or everything from before the next round is refused; no empty string is accepted before where the round ends. |
| `Complicated.EndlessSaysNothing` | contrib/tcl9.0.4/generic/regexec.c:476-534 | Where an empty string is accepted short of the end, and it and all before it is refused, no round reports a match or the lack of one. |
| `Complicated.EndsAlways` | contrib/tcl9.0.4/generic/regexec.c:476-534 | Where no empty string is accepted short of the end of the text, or nothing accepted is ever refused, the rounds come to an end. |
| `Complicated.ComplicatedFindLoop` | contrib/tcl9.0.4/generic/regexec.c:459-538 | For any number of rounds: a match is the first pair, by start and then by preference of end, that can be divided; no match only when all are refused; with more rounds than characters there is an answer if and only if it does not go on for ever. |
| `Subres.AfterFrame` | contrib/tcl9.0.4/generic/regexec.c:587-604 | Matching a node sets captures of the node only. |
| `Iterations.MeasureDrops` | contrib/tcl9.0.4/generic/regexec.c:1053-1158 | A search that has moved on at some piece has come down in a measure over the whole endpoint vector. |
| `Iterations.Compress` | contrib/tcl9.0.4/generic/regexec.c:987-1052 | Empty pieces of a division can be dropped. |
| `Iterations.WorthExists` | contrib/tcl9.0.4/generic/regexec.c:987-1052 | If a string can be divided at all and min is at most 1, it can be divided so that the search has to try it. |
| `Iterations.ThriftySpan` | contrib/tcl9.0.4/generic/regexec.c:1019-1035 | The divisions the search has to try, empty pieces included, have no more pieces than the endpoint vector has room for. |
| `Iterations.DivisionTried` | contrib/tcl9.0.4/generic/regexec.c:1105-1130 | Once a division has been tried in vain all others not yet tried are still ahead, and those tried are not. |
| `Iterations.NothingLeft` | contrib/tcl9.0.4/generic/regexec.c:1134-1158 | When the search has run out of endpoints every division it owes a try has been tried. |
| `Iterations.FoundFirst` | contrib/tcl9.0.4/generic/regexec.c:1053-1130 | The division found comes before every other not yet tried in the order of preference. |
| `Iterations.BackForward` | contrib/tcl9.0.4/generic/regexec.c:1134-1152 | Backtracking forward gives up only endpoints that cannot be moved, and skips no division, whatever min. |
| `Iterations.BackBackward` | contrib/tcl9.0.4/generic/regexec.c:1317-1330 | The same going backward. |
| `Dissect.Vars.ZapTreeSubs` | contrib/tcl9.0.4/generic/regexec.c:561-581 | Exactly the captures of the subtree are cleared. |
| `Dissect.Vars.GetSubDfa` | contrib/tcl9.0.4/generic/regexec.c:291-306 | The DFA made at the first call is kept with whatever its cache holds and handed out again; all DFAs at hand stay in order. |
| `Dissect.Vars.CDissect` | contrib/tcl9.0.4/generic/regexec.c:620-682 | Terminates. REG_OKAY exactly when there is a match of the node that is first at every choice (a midpoint, an alternative, a division of an iteration), everything before it having been refused: it is the only such match, and the captures are those it makes, with what failed alternatives left. REG_NOMATCH exactly when every choice there was is refused, and then the captures are the only ones LeftBehind allows (Refusals.OneOutcome); never on a complete tree, where the match is also the preferred one; of a back reference, exactly when the substring is no run of copies. No other capture is touched. |
| `Dissect.Vars.CConDissect` | contrib/tcl9.0.4/generic/regexec.c:688-772 | The same for a concatenation whose left side prefers longer: every midpoint beyond the one chosen was left in vain, all of them after REG_NOMATCH. |
| `Dissect.Vars.CRevConDissect` | contrib/tcl9.0.4/generic/regexec.c:778-863 | The same for one whose left side prefers shorter. |
| `Dissect.Vars.CBrDissect` | contrib/tcl9.0.4/generic/regexec.c:869-944 | REG_OKAY exactly when the substring is between min and max copies of what the group captured. |
| `Dissect.Vars.CAltDissect` | contrib/tcl9.0.4/generic/regexec.c:950-981 | The first alternative whose DFA accepts and that can be divided, entered with what the ones before it left behind, since nothing is cleared in between. |
| `Dissect.Vars.CIterDissect` | contrib/tcl9.0.4/generic/regexec.c:987-1159 | Terminates, keeps k within max_matches; REG_OKAY only with between min and max consecutive pieces, each matched by the child's DFA and verified at its final endpoints (none for an empty string when min is 0), every division before it in the order of preference having a piece without a match; REG_NOMATCH only when every division it owes a try has one. |
| `Dissect.Vars.CRevIterDissect` | contrib/tcl9.0.4/generic/regexec.c:1165-1337 | The same, preferring shorter pieces. |
| `Dissect.NoDivision` | contrib/tcl9.0.4/generic/regexec.c:1153-1158 | REG_NOMATCH from an exhausted search means that every division worth a try has a piece without a match, and that the captures are what the last of them left. |
| `Dissect.IterationDone` | contrib/tcl9.0.4/generic/regexec.c:1105-1130 | The verified pieces are a division in the sense of the specification, and every one before it has a piece without a match. |
| `Refusals.NeverVain` | contrib/tcl9.0.4/generic/regexec.c:544-1337 | On a complete tree no dissection of what the automaton accepts is in vain. |
| `Refusals.FirstIsPreferred` | contrib/tcl9.0.4/generic/regexec.c:544-1337 | On a complete tree the match that is first at every choice is the preferred one. |
| `Refusals.OneOutcome` | contrib/tcl9.0.4/generic/regexec.c:544-1337 | For every node, substring and captures there is at most one match that is first at every choice, at most one set of captures a failure can leave, and never both. |
| `Refusals.IterationExactly` | contrib/tcl9.0.4/generic/regexec.c:987-1337 | Without back references below it an iteration is refused exactly when no division is worth a try. |
| `Refusals.WorthWhenever` | contrib/tcl9.0.4/generic/regexec.c:987-1337 | Such a division is there whenever the string can be divided at all, if min is at most 1 or no piece can be empty. |
| `Refusals.NothingTwice` | contrib/tcl9.0.4/generic/regexec.c:1104-1106 | Of the empty string two or more pieces are never found, although it has a match with so many whenever it has one of the piece. |
| `Examples.NoughtRefused` | contrib/tcl9.0.4/generic/regexec.c:1104-1106 | The iteration of ()(?:\1){2} matches the empty string and is refused. |
| `Examples.NoughtBuilt` | contrib/tcl9.0.4/generic/regcomp.c:1101-1272 | The tree of the next row is the one built for ()(?:\1){2}. |
| `Examples.NoughtEndless` | contrib/tcl9.0.4/generic/regexec.c:476-534 | In "ab" the search for ()(?:\1){2} goes on for ever. |
| `Blocks.StackUse.Adjust` | contrib/tcl9.0.4/generic/tclAssembly.c:570-589 | The three counters describe every prefix of the block: its lowest and highest points, both reached, and where it ends. |
| `Catches.StackIsChain` | contrib/tcl9.0.4/generic/tclAssembly.c:3724-3749 | The chain of enclosing catches of a visited block is acyclic and as long as its catch depth. |
| `Catches.CatchAnalysis.EnterBlock` | contrib/tcl9.0.4/generic/tclAssembly.c:3724-3749 | Fails only on a block that another walk enters with other catches open; a change makes the total of catch states rise. |
| `Catches.CatchAnalysis.Contexts` | contrib/tcl9.0.4/generic/tclAssembly.c:3756-3798 | The successors get the contexts a walk brings them; fails only on an endCatch some walk reaches with none open. |
| `Catches.CatchAnalysis.ProcessBlock` | contrib/tcl9.0.4/generic/tclAssembly.c:3687-3835 | Terminates, because catch states only rise; on success the block and all that follows has been visited with the chain a walk brings; on failure some walks show a fault. |
| `Catches.WalksFollow` | contrib/tcl9.0.4/generic/tclAssembly.c:3687-3835 | Every walk enters each block with exactly its chain of enclosing catches open. |
| `Catches.ProcessCatches` | contrib/tcl9.0.4/generic/tclAssembly.c:3619-3652 | Succeeds exactly when no two walks enter a block with different catches open, no endCatch is reached with none, and none is open at the end; then the enclosing catches are those of every walk. |
| `StackCheck.StackAnalysis.CheckBlock` | contrib/tcl9.0.4/generic/tclAssembly.c:3378-3514 | On success the block has been visited at the depth given, and so have its successors; on failure some walks show a fault. |
| `StackCheck.WalksMeasured` | contrib/tcl9.0.4/generic/tclAssembly.c:3311-3353 | Every walk enters each block at the recorded depth. |
| `StackCheck.CheckStack` | contrib/tcl9.0.4/generic/tclAssembly.c:3311-3353 | Succeeds exactly when no two walks disagree about a depth, none underflows the stack or the level of its innermost catch, and each leaves nothing or one value; then no walk goes above the recorded maximum, which some walk reaches, and a null result pushed at the end is covered if and only if an instruction raises the depth above 0. |
| `StackCheck.NullCovered` | contrib/tcl9.0.4/generic/tclAssembly.c:3333-3345 | For all code: the recorded maximum covers the null result pushed at the end if and only if some walk comes to an instruction that raises the depth above 0. |
| `Relocation.MovedOne` | contrib/tcl9.0.4/generic/tclAssembly.c:2993-3002 | Moving one block up disturbs neither the blocks moved before it nor those still to be moved. |
| `Relocation.MoveCodeForJumps` | contrib/tcl9.0.4/generic/tclAssembly.c:2968-3004 | Every byte of every block arrives at its new place: none is overwritten before it has been moved. |
| `Alloc.Allocator.constructor` | contrib/tcl9.0.4/generic/tclAlloc.c:204-235 | All free lists are empty and nothing is allocated. |
| `Alloc.WholeBlocks` | contrib/tcl9.0.4/generic/tclAlloc.c:402-407 | The assertion of MoreCore(): the blocks of every bucket fill a chunk exactly. |
| `Alloc.CarveKeepsApart` | contrib/tcl9.0.4/generic/tclAlloc.c:409-428 | The blocks carved from a fresh chunk overlap neither each other nor any old block. |
| `Alloc.Allocator.MoreCore` | contrib/tcl9.0.4/generic/tclAlloc.c:387-429 | A chunk becomes the free list of its bucket, all of it carved into blocks of that size; without a chunk nothing changes. |
| `Alloc.Allocator.BucketFor` | contrib/tcl9.0.4/generic/tclAlloc.c:317-328 | The bucket is the first whose blocks have room for the request and the overhead. |
| `Alloc.Allocator.Alloc` | contrib/tcl9.0.4/generic/tclAlloc.c:253-367 | The block was not in use, has room for the request and no more than twice that needs, and nothing else has come into use; if its list was not empty it is the block freed last; every carved block stays in use or on the one free list of its size, and no two blocks overlap. Fails exactly without memory, the list being empty, or for an oversized request. |
| `Alloc.TakeKeeps` | contrib/tcl9.0.4/generic/tclAlloc.c:343-349 | Popping the head of a free list keeps all lists exact. |
| `Alloc.GiveKeeps` | contrib/tcl9.0.4/generic/tclAlloc.c:485-487 | Pushing a block on the list of its own size keeps all lists exact. |
| `Alloc.Allocator.Free` | contrib/tcl9.0.4/generic/tclAlloc.c:447-494 | Exactly the one block goes out of use and heads the free list of its size; the null pointer, or a pointer to no block in use, changes nothing. |
| `Alloc.CopySpares` | contrib/tcl9.0.4/generic/tclAlloc.c:603-607 | Copying into one block in use leaves every byte of the others alone. |
| `Alloc.Allocator.Realloc` | contrib/tcl9.0.4/generic/tclAlloc.c:512-623 | A success has room for the new size if and only if the sizes have not wrapped around modulo 2^64; if they have not, it holds the bytes both sizes have room for, only the old block has gone out of use, and the bytes of every other block are unchanged; on failure nothing has changed. Which of the two it is, and whether the block is the old one, is settled by the old sizes, the free lists and the memory at hand (Alloc.Answers): so the block is kept exactly when the new size fits it and is not small enough for the bucket below, and nothing is refused that Alloc would grant. A null pointer is an allocation. |
| `Alloc.SuitsSum` | contrib/tcl9.0.4/generic/tclAlloc.c:586-592 | The two comparisons with the sum made modulo 2^64 hold exactly when the request suits a block of that size, or wraps around at one of the first bucket. |
| `Async.NoMarkIsLost` | contrib/tcl9.0.4/generic/tclAsync.c:141-410 | In every interleaving of create, mark, signal, notifier, invoke, delete and finalize steps, a thread that is not active and owns a marked handler has asyncReady set. |
| `Async.PicksFirst` | contrib/tcl9.0.4/generic/tclAsync.c:332-345 | A pass picks the first marked handler of the thread in creation order, and one whenever there is one. |
| `Async.StopsClean` | contrib/tcl9.0.4/generic/tclAsync.c:332-350 | When Tcl_AsyncInvoke() stops, no handler of the thread is marked. |
| `Async.StepDoes` | contrib/tcl9.0.4/generic/tclAsync.c:141-410 | What every step does to the handlers, their marks, their order and their owners, said for each without the others: marking marks, picking clears exactly the mark of what it picks. |
| `Async.MarkedUntil` | contrib/tcl9.0.4/generic/tclAsync.c:141-410 | Over every allowed run a marked handler stays marked until it is picked, deleted or finalized. |
| `Async.RunBeforeStop` | contrib/tcl9.0.4/generic/tclAsync.c:332-350 | Between the moment a handler is marked and the stop of an invocation of its owner it has been picked, deleted or finalized. |
| `Async.MarkHeeded` | contrib/tcl9.0.4/generic/tclAsync.c:191-353 | After any allowed run that leaves a handler marked its owner is invoking handlers, or the invocation it begins next picks one. |
| `Async.Handlers.Create` | contrib/tcl9.0.4/generic/tclAsync.c:141-170 | A new token at the end of a well-formed doubly linked list; refines the create step. |
| `Async.Handlers.Mark` | contrib/tcl9.0.4/generic/tclAsync.c:191-205 | The handler is marked and no other; refines the mark step: the owner is told unless it is invoking handlers. |
| `Async.Handlers.MarkFromSignal` | contrib/tcl9.0.4/generic/tclAsync.c:225-241 | The handler is left for the notifier, and nothing else has changed; refines the signal step. |
| `Async.Handlers.MarkFromNotifier` | contrib/tcl9.0.4/generic/tclAsync.c:260-277 | Exactly the handlers left by signals are marked, none is left any more, and their owners are told; refines the notifier step. |
| `Async.Handlers.BeginInvoke` | contrib/tcl9.0.4/generic/tclAsync.c:297-346 | Picks the first ready handler in creation order and clears its mark and no other; refines the first pass. |
| `Async.Handlers.NextInvoke` | contrib/tcl9.0.4/generic/tclAsync.c:332-353 | Refines the later passes; the thread is active until none of its handlers is ready. |
| `Async.Handlers.Delete` | contrib/tcl9.0.4/generic/tclAsync.c:379-410 | Exactly the one handler leaves the list, which stays well-formed at head, tail and middle. |
| `Async.Handlers.Finalize` | contrib/tcl9.0.4/generic/tclAsync.c:82-120 | Every handler of the thread leaves the list, and exactly those of Queued are handed to Tcl_Free(). |
| `Async.FinalizeFreesAll` | contrib/tcl9.0.4/generic/tclAsync.c:88-119 | All handlers of the thread are freed if and only if the list was empty or another thread still has one; otherwise the last one is taken out but not freed. |
| `Readings.AcceptsReading` | contrib/tcl9.0.4/generic/regc_nfa.c:68-82 | With ends as newnfa() leaves them an automaton matches a piece of text if and only if the piece reads as a word it spells. |
| `Readings.WordsTexts` | contrib/tcl9.0.4/generic/regc_nfa.c:68-82 | Automata that spell the same words match the same pieces of every text: what fixempties() preserves is what pulling, pushing and compacting preserve. |
| `Colors.TakenAsMeant` | contrib/tcl9.0.4/generic/regc_color.c:599-640 | Once no colour has an open subcolour, a symbol that is the colour of a character is taken by exactly the coloured arcs that let the character pass. |
| `Alloc.KeptExactly` | contrib/tcl9.0.4/generic/tclAlloc.c:586-592 | A block without room for numBytes is taken for one with room if and only if it is of the first bucket and numBytes is at least 2^64 - 8. |
| `Alloc.BigAsked` | contrib/tcl9.0.4/generic/tclAlloc.c:551-552 | The system is asked for room for numBytes if and only if numBytes is below 2^64 - 32. |
| `Alloc.FirstWraps` | contrib/tcl9.0.4/generic/tclAlloc.c:546-592 | The two least sizes that wrap around unnoticed: 8 bytes are needed for 2^64 - 8, none for 2^64 - 32. |
| `StackCheck.NullNotCounted` | contrib/tcl9.0.4/generic/tclAssembly.c:3562-3576 | Code without instructions, for which the recorded maximum does not cover the null result. |
| `StaleCaptures.LeftWithin` | contrib/tcl9.0.4/generic/regexec.c:688-981 | A dissection that finds nothing touches the captures of its own node only, whatever the node. |
| `StaleCaptures.TidyIsClean` | contrib/tcl9.0.4/generic/regexec.c:950-981 | If every alternative but the last is without groups or without back references (Parsing.TreeTells), no reported capture stems from a failed attempt. |
| `StaleCaptures.LeavesExactly` | contrib/tcl9.0.4/generic/regexec.c:688-981 | Whether a failed dissection leaves a group set can be read off what the automata accept at the last midpoint tried: if and only if, along every chain of concatenations, alternatives and groups whose left sides have no back references. |
| `StaleCaptures.StaleCapture` | contrib/tcl9.0.4/generic/regexec.c:950-981 | Whichever alternative of however many matches, a group that is none of its own is reported all the same if and only if an earlier alternative was tried and leaves it behind. |
| `StaleCaptures.StaleOnAb` | contrib/tcl9.0.4/generic/regexec.c:950-981 | For the regex of the example, with the tree the compiler builds for it, and the string "ab" the second alternative matches and group 1 of the first is reported as matched; no clean description of the match gives these captures. |
| `Potential.BudgetStart` | contrib/tcl9.0.4/generic/regc_nfa.c:2151-2158 | Every automaton without a loop of constraint arcs has a budget: numbers that bound, at each state, how many chains of constraint arcs end there and how long they are in all. |
| `Potential.TargetBound` | contrib/tcl9.0.4/generic/regc_nfa.c:1578-1617 | What a pull adds at its target, through new and shared intermediate states and by confirmed arcs, weighs no more than the constraint it takes away did. |
| `Potential.CostDrops` | contrib/tcl9.0.4/generic/regc_nfa.c:1578-1617 | The constraints a pull creates cost strictly less than the one it removes. |
| `Potential.PullSpends` | contrib/tcl9.0.4/generic/regc_nfa.c:1531-1620 | Every pull of a constraint not yet at pre spends of the budget, and what is left is a budget of the new automaton. |
| `Optimize.Sweep` | contrib/tcl9.0.4/generic/regc_nfa.c:1464-1487 | One run of the inner loop, over all states in the chain including those appended meanwhile, ends; with progress it has spent of the budget, without it no constraint is left to be moved at any state. |
| `Optimize.MoveAll` | contrib/tcl9.0.4/generic/regc_nfa.c:1446-1510 | pullback() as a whole (pushfwd() in the other direction): ends on every automaton without a loop of constraint arcs, leaves no constraint of its kind anywhere, and the same pieces of every text are matched. |
| `Optimize.Settled` | contrib/tcl9.0.4/generic/regc_nfa.c:1681-1688 | Once nothing moves and the anchors at the end are PLAIN arcs, no constraint of the kind is left, labels are old ones or those of the string-end colours, and the same pieces of every text are matched. |
| `Optimize.Optimize` | contrib/tcl9.0.4/generic/regc_nfa.c:1406-1440 | The passes one after the other, cleanups included, on every automaton the parser can make: they end, exactly the same pieces of every text are matched, only PLAIN and LACON arcs are left, the states are numbered without gaps and the automaton has the shape makesearch() and compact() ask for; what analyze() reports is true of the automaton as it was parsed. |
| `Optimize.CompiledMatches` | contrib/tcl9.0.4/generic/rege_dfa.c:482-564 | What subset simulation of the compacted form finds in a text is what the parsed automaton, constraints and all, matches in it. |
| `Cleanup.Mark` | contrib/tcl9.0.4/generic/regc_nfa.c:2729-2771 | Terminates; exactly states with the mark considered that can be reached (that reach the state) get the new mark, and no arc leads on from one of them to a state still to be marked. |
| `Cleanup.MarkedUseful` | contrib/tcl9.0.4/generic/regc_nfa.c:2701-2702 | After both traversals exactly the states on some path from pre to post have the mark of post. |
| `Cleanup.PostMarked` | contrib/tcl9.0.4/generic/regc_nfa.c:2709 | If an arc into post is left, post has been marked: the assertion of cleanup() holds. |
| `Cleanup.AllMarksCleared` | contrib/tcl9.0.4/generic/regc_nfa.c:2710 | Every mark left after dropping can be reached from pre over what is left, so one traversal clears them all. |
| `Cleanup.KeptTexts` | contrib/tcl9.0.4/generic/regc_nfa.c:2703-2708 | The states dropped take no match of any text with them. |
| `Cleanup.DropUnmarked` | contrib/tcl9.0.4/generic/regc_nfa.c:2703-2708 | Exactly the unmarked states without a flag go, with exactly their arcs; the order of the others is kept. |
| `Cleanup.Renumber` | contrib/tcl9.0.4/generic/regc_nfa.c:2714-2722 | Each state gets its place in the chain as its number, all chains and arcs follow, and pre and post keep theirs. |
| `Cleanup.NamedTexts` | contrib/tcl9.0.4/generic/regc_nfa.c:2714-2722 | The new numbers do not change what is matched. |
| `Cleanup.Cleanup` | contrib/tcl9.0.4/generic/regc_nfa.c:2688-2723 | What is left are the two ends and the states on some path from pre to post, numbered without gaps, with the arcs between them; the same pieces of every text are matched; tmp pointers are clear. |
| `Cleanup.Analyze` | contrib/tcl9.0.4/generic/regc_nfa.c:2777-2799 | REG_UIMPOSSIBLE exactly when no arc leaves pre, REG_UEMPTYMATCH exactly when two arcs lead from pre to post. |
| `Cleanup.ImpossibleMeans` | contrib/tcl9.0.4/generic/regc_nfa.c:2784-2786 | After a cleanup no arc leaves pre if and only if no path led from pre to post before it. |
| `EmptyMatches.EmptyMeans` | contrib/tcl9.0.4/generic/regc_nfa.c:2787-2793 | REG_UEMPTYMATCH is set if and only if the parsed automaton has an empty match in some text of real characters in which every lookaround constraint fails. |
| `EmptyMatches.EmptyExactly` | contrib/tcl9.0.4/generic/regc_nfa.c:2787-2793 | The empty string can be matched in some text of real characters if and only if lookaround constraints alone lead from an arc of pre to an arc into post. |
| `EmptyMatches.FlagExactly` | contrib/tcl9.0.4/generic/regc_nfa.c:2787-2793 | REG_UEMPTYMATCH tells whether the empty string can be matched if and only if, where it is possible at all, it is possible without the help of a lookaround constraint. |
| `EmptyMatches.FlagRight` | contrib/tcl9.0.4/generic/regc_nfa.c:2787-2793 | Without lookaround constraints REG_UEMPTYMATCH is right. |
| `EmptyMatches.LookaroundEmpty` | contrib/tcl9.0.4/generic/regc_nfa.c:2787-2793 | The regex (?=b), with the automaton parsed for it: the empty string is matched before a b, and whatever optimize() makes of it REG_UEMPTYMATCH is not set. |
| `Optimize.Tells` | contrib/tcl9.0.4/generic/regc_nfa.c:1439 | Of an automaton reported as impossible no text has a match, whatever constraints it was parsed with. |
| `Compile.ExecuteRegex` | contrib/tcl9.0.4/generic/regexec.c:253-259 | For a regex without back references and the tree parse() builds for it: no match is reported exactly when the parsed automaton matches nothing; otherwise the leftmost match, and the longest or shortest from there as the regex itself says, always divided among the groups, in the preferred way, and as some match of the regex divides it. |
| `Compile.SearchAutomaton` | contrib/tcl9.0.4/generic/regcomp.c:436-438 | makesearch() and compact() in turn give an automaton simpleFind() can search with. |
| `Copies.CrossTraverse` | contrib/tcl9.0.4/generic/regc_nfa.c:1297-1336 | duptraverse() from one automaton into another: terminates, every state met gets a duplicate of its own that is new, and exactly the images of the arcs of those states are added. |
| `Copies.CrossDup` | contrib/tcl9.0.4/generic/regc_nfa.c:1272-1291 | What can be reached from start before stop is strung between from and to of the other automaton; the tmp pointers are clear again. |
| `Copies.FramedWords` | contrib/tcl9.0.4/generic/regc_nfa.c:75-83 | Between pre and post exactly the words from init to final are spelled, each between the label of an arc of pre and that of an arc into post. |
| `Copies.NodeNfa` | contrib/tcl9.0.4/generic/regcomp.c:1930-1932 | newnfa() and dupnfa(): the new automaton spells exactly what lies between the two states of the node, framed; its labels are old ones. |
| `Copies.RootWords` | contrib/tcl9.0.4/generic/regcomp.c:665-711 | What is made for the root of the tree, be it a chain of branches or a single one, spells the words of the whole parsed automaton. |
| `Compile.NfaNode` | contrib/tcl9.0.4/generic/regcomp.c:1914-1943 | The automaton made for a node accepts exactly the pieces of text that read as a word between the two states of the node, framed by the symbols before and after; nothing comes back to its pre. |
| `Compile.Compile` | contrib/tcl9.0.4/generic/regcomp.c:408-438 | From every parsed automaton, with whatever constraints, main and search automaton are made, and serve for it. |
| `Compile.MainServes` | contrib/tcl9.0.4/generic/regexec.c:312-383 | The main automaton finds what the search automaton was made to find. |
| `Compile.Execute` | contrib/tcl9.0.4/generic/regexec.c:200-259 | From the parsed automaton to the result: no match is reported exactly when the parsed automaton, constraints and all, matches nothing in the text; otherwise the leftmost match with its preferred end, and a division among the groups. |
| `Compile.ExecuteReferring` | contrib/tcl9.0.4/generic/regexec.c:200-255 | For a regex with back references: the match reported is the first of those the parsed automaton makes, by start and then by preference of end, that can be divided among the groups, and is a match of the regex, groups and all, if the regex is tidy; no match is reported only when all are refused; and neither comes about exactly when some empty string is accepted where that and everything before it is refused. |
| `Parsing.FlagsTell` | contrib/tcl9.0.4/generic/regcomp.c:650-1273 | The flags of a tree say exactly whether there are groups and back references that are not cancelled, so that nothing of the kind is ever swallowed by a node that is one DFA. |
| `Parsing.FlagsAgree` | contrib/tcl9.0.4/generic/regcomp.c:1088-1098 | No node prefers both longer and shorter, and the quantifiers in what becomes one DFA prefer nothing else than the node: the assertion on MESSY() holds. |
| `Parsing.SplitMessy` | contrib/tcl9.0.4/generic/regcomp.c:1101-1272 | Once the hard part has been taken the top of the branch is messy itself, and prefers one way. |
| `Parsing.TreeWishes` | contrib/tcl9.0.4/generic/regcomp.c:650-1273 | Every node made of a regex prefers what the regex between its states says: several branches longer; otherwise the first term that is not cancelled and has a preference, its quantifier's before its atom's. |
| `Parsing.TreeWish` | contrib/tcl9.0.4/generic/regcomp.c:1270-1272 | So does the top of the tree, messy or not. |
| `Parsing.ParseSpan` | contrib/tcl9.0.4/generic/regcomp.c:650-721 | The nodes at the top of the tree span the whole regex. |
| `Parsing.SplitComplete` | contrib/tcl9.0.4/generic/regcomp.c:1146-1167 | Whatever the two concatenations of the hard part accept can be split between their children. |
| `Parsing.PrefixSplits` | contrib/tcl9.0.4/generic/regcomp.c:1216-1240 | What x{m,n} accepts can be split into x{m-1,n-1} and x. |
| `Parsing.ChainTakes` | contrib/tcl9.0.4/generic/regcomp.c:665-694 | What a chain of branch nodes strung between the same two states accepts some branch of it accepts. |
| `Parsing.TreeTells` | contrib/tcl9.0.4/generic/regcomp.c:650-1273 | Every tree, with automata that accept what lies between the states of their nodes, is complete if and only if the regex has no back reference, has exactly its groups, is tidy if and only if no earlier alternative has both groups and back references, and is fit for dissection. |
| `Matching.RefMatches` | contrib/tcl9.0.4/generic/regcomp.c:1193-1209 | The node of a quantified back reference matches exactly what the regex says: min to max copies of what its group has matched. |
| `Matching.PrefixMatches` | contrib/tcl9.0.4/generic/regcomp.c:1218-1239 | x{m-1,n-1}x matches exactly what x{m,n} does, groups and all. |
| `Matching.IterMatches` | contrib/tcl9.0.4/generic/regcomp.c:1240-1256 | An iteration matches exactly the m to n consecutive matches of its atom, the last of which sets the groups. |
| `Matching.TreeMatches` | contrib/tcl9.0.4/generic/regcomp.c:650-1273 | The tree of a regex, with automata that accept what lies between the states of their nodes, turns captures into captures over a piece of text, nothing being left over from failed attempts, if and only if the regex itself does: branches, terms in order, groups by number, quantifiers, back references. |
| `Matching.ReportedMatches` | contrib/tcl9.0.4/generic/regexec.c:620-682 | What a dissection reports for a tidy regex is a match of the regex with exactly these groups. |
| `Matching.MeantMatches` | contrib/tcl9.0.4/generic/regcomp.c:650-1273 | Without back references every piece of text the regex means has a match with groups, in the regex and in its tree. |
| `Examples.AOrBComplete` | contrib/tcl9.0.4/generic/regcomp.c:665-715 | The tree of (a)\|(b), both of its branch nodes having one automaton, is complete on every text. |
| `Examples.EitherWayBuilt` | contrib/tcl9.0.4/generic/regcomp.c:665-1273 | The tree with the stale capture is the one built for its regex; it is neither complete nor tidy. |

## Left out

* A donemap of `clonesuccessorstates()` is a set of states, not an array of flags; its copy for a child is the set itself.
* `Parsing` gives every node the part of the regex between its states, and `Parsing.Finished` asks that the node's automaton
  accept what that part means; that the states the parser strings up for each atom spell its meaning is not shown.
  `Compile.NfaNode` shows that a node's automaton accepts what lies between its states, whatever that is.
* `numst()`, `markst()` and `cleanst()`: nodes are values, and none is left over.
* `getsubdfa()` keeps one DFA for each node of the tree, `Dissect` one for each automaton: nodes with the same automaton
  share it.
* In `Cleanup` a state that is dropped loses its tmp pointer at once, not when its memory is used again.
* `carcsort()`: the order of a compacted arc list is that of the out-chain; nothing depends on it here.
* `qsort()` is a sorting function with the order of the comparison function; the array `mergeins()` compresses in place
  is a sequence of which the kept prefix is returned.
* An arc is a value, not a node: chains hold arcs, and recolouring an arc is taking one out and putting one in. The
  colour chains of `Colors` hold the coloured arcs; that they are also in the chains of the automaton is not stated.
* What `complicatedFind()` reports in `rm_extend`. That it goes on for ever is said by letting it run for any number of rounds.
* What a back reference stands for in the automaton is part of the meaning `Matching` and `Parsing` are given: that the copy
  of its group accepts what the group matches is not shown.
* `checkLAConstraint()`: lookahead is an oracle.
* Completeness of dissection for trees with back references, or with iterations of at least two: the first match of a left
  side, of an alternative or of a piece is kept though another might let the rest match. Which choices are tried and refused
  is stated exactly (`Subres.LeftBehind`).
- StaleCaptures.StaleCapture: is an equivalence where what precedes the failure has no back references of its own and sets the group in every match; elsewhere what remains is settled by `Subres.LeftBehind`, but not read off the automata.
- Alloc.Allocator.Free: a pointer to no block in use is taken to have no magic numbers before it; what happens to be there is not modelled, since headers are kept apart from the callers' bytes.
- Alloc.Allocator.Realloc: when the size has wrapped around to at most 31 bytes, a refusal of the system is taken to have left the block alone, as for any other size.
* Big blocks are a set, not a doubly linked list; the allocator's mutex, its debugging fields, its statistics, and the
  bytes a grown block has beyond the old ones.
- Compile.Compile: always yields an automaton, since neither exhaustion of memory nor the limit on the space of one compilation (`contrib/tcl9.0.4/generic/regc_nfa.c:131-134, 384-387`) is modelled.
* Exhaustion of memory in the compiler and executor, cancellation, the limits on space and recursion depth, debugging
  output.
* `subblock()` when no colour is left: it goes on with COLORLESS as an index; no claim is made.
* Doubling of the colour descriptor array; characters are those of a 21-bit range in a tree with four levels of 256.
* Lexer, locale tables and the arcs of characters, classes and word constraints: `Parsing` starts from atoms, quantifiers
  and branches.
* `BuildExceptionRanges()`, `UnstackExpiredCatches()` and the restoration of embedded ranges; `CalculateJumpRelocations()`:
  the block offsets before and after are given to `Relocation`.
* Labels, literals, local variables and embedded scripts of the assembler: labels are resolved to block numbers.
* Alerts to other threads; the run of a handler itself, during which any other step may happen.
* The messenger's own C, the audio and crypto wrappers, the queue and base64 helpers, `tclArithSeries.c`, `tclCkalloc.c`:
  thin or routine next to the rest.
