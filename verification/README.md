# Vue 2.5.9: a verified model of its algorithmic cores

The repository vendors the Vue.js 2.5.9 runtime and compiler (`Base/Collection/instruction/js/vue.js`, minified, all
code on line 9). This project models the parts of it that do real work and proves what they promise:

- **Virtual-DOM patch** (`Keys`, `Dom`, `VNode`, `KeyIndex`, `KeySafety`, `Forests`, `Accounting`, `Alignment`, `Patch`, `Reconcile`):
  the document is an object whose child lists are edited in place. `Reconcile.UpdateChildren` is the four-pointer
  comparison of two child lists over an array of old children; its invariant says that the children of the parent are the
  finished new ones in front, the live old ones in between and the finished new ones behind, and an account tells which
  new child took over which old one, and another one what stays in place. Through the recursion with `PatchVnode`, patching yields the tree that creating the
  new tree would.
- **Reactive graph** (`Getters`, `NaiveRuntime`, `Reactive`, `Runtime`): dependency lists, watchers, the evaluation stack and computed
  properties with dynamic dependencies. A getter is a tree of reads that decides from each value how to go on. Every
  program sees the values, the watchers and the queue of a system without caches.
- **Scheduler and nextTick** (`FlushOrder`, `Scheduler`, `NextTick`): a queue that is spliced while it is drained, and batches of
  callbacks that register callbacks.
- **Template compiler** (`Html`, `Nesting`, `Scan`, `Story`, `StoryProof`, `StoryUnique`, `Parse`, `Values`, `Trees`,
  `Normalize`, `Template`, `Shown`, `Hoisting`, `Marking`, `Codegen`, `StaticTrees`, `Conditions`, `CodegenProof`): the
  scanner with its two stacks in lock-step, which cuts up the whole input in the only way its rules allow; child
  normalisation; the two passes that mark static nodes; code generation into a small
  expression language, and the evaluation of that code with the cache of static trees, compared with a direct interpreter
  of the template.
- **Deep traversal, activation tree, keep-alive** (`Traverse`, `ComponentTree`, `Activation`, `KeepAlive`).

Members are named after the unminified names of Vue; the names in the file are given in backticks below. `Sequences` and
`Options` hold common helpers.

## Where the code does not do what one would expect

Each of these is stated with a concrete witness and with the exact condition under which the code is right.

- The key index of the diff (`Zt`, `C`) is an object literal, and keys become property names in it. A lookup is bad when it
  reads an inherited value or the slot of an old child that is used up: the source then throws, or uses one element twice.
  `KeyIndex.Survives` says of two trees that no lookup of their patch is bad; it is what `Reconcile.PatchRoot` asks for.
  `Accounting.BadLookUpExactly` says when a lookup is bad, `KeySafety.PatchableSurvives` gives a condition on the keys alone.
  Witnesses: `KeySafety.CollidingKeysFail` (a number and the string of its digits, for instance) and
  `KeySafety.InheritedKeyFails` (`constructor`, for instance); `KeySafety.SharedInheritedKey` shows that an old child of the
  same key cures the latter, except for `__proto__`.
- A cached static tree is cloned one level deep (`ot`): a static `<template>` directly inside a hoisted `<template>` is lost
  in the second render. `StaticTrees.HoistedTwice` gives the exact condition, `CodegenProof.TemplateInTemplateBreaks` the witness.
- A single looping child is generated without a normalisation type even if its else blocks are templates or loops: an
  array stays among the children. `CodegenProof.RendersMeanTemplate` gives the exact condition in every scope,
  `CodegenProof.LoopWithTemplateElseIsImproper` the witness.
- The keep-alive cache goes by property names, `keys` by value: a number and the string of its digits share an entry
  (`KeepAlives.UsedMatches`, witness `KeepAlives.NumberThenStringCollides`), and pruning leaves a number behind
  (`KeepAlives.PruneMatches`, witness `KeepAlives.NumberKeyGoesStale`).
- A comment that is kept while no element is open makes the tree builder read a field of nothing (`Cr`).
  `Scanning.FailsExactly` and `Parsing.Parser.Parse` say exactly when, `Scanning.CommentAloneFails` is the witness.

## Checking

`dafny verify dfyconfig.toml` with Dafny 4.11. Proofs hide definitions that they do not need (`hide`), which keeps every
proof obligation small.

## Model

| member | source | states |
|---|---|---|
| `Dom.Document.CreateNode` | Base/Collection/instruction/js/vue.js:9 | `createElement` and its siblings make a node that did not exist and has no parent; nothing else in the document changes |
| `Dom.Document.InsertBefore` | Base/Collection/instruction/js/vue.js:9 | `nodeOps.insertBefore`/`appendChild`: the node leaves the parent it has, whichever that is, and stands before the reference node; parent pointers still mirror child lists |
| `Dom.Document.RemoveNode` | Base/Collection/instruction/js/vue.js:9 | `removeNode` (`c`): a node without a parent is left alone, otherwise it leaves exactly its parent's child list |
| `VNodes.ShowsDepicts` | Base/Collection/instruction/js/vue.js:9 | a mounted virtual node is, in the document, the very tree that rendering it from scratch describes |
| `VNodes.SameKindExactly` | Base/Collection/instruction/js/vue.js:9 | the reuse test (`Wt`, `Gt`) holds exactly for two texts, two comments, or two elements of one tag that both lack data or both have data and equal keys; inputs must in addition both lack attributes, or have equal or both missing types, or two types of text field |
| `VNodes.FieldsReused` | Base/Collection/instruction/js/vue.js:9 | a text field is reused for a password field, a checkbox is not reused for a text field |
| `Keys.NumberNames` | Base/Collection/instruction/js/vue.js:9 | a number names the property of its decimal notation, which reads back as the number |
| `KeyIndex.BuiltMeaning` | Base/Collection/instruction/js/vue.js:9 | the index `createKeyToOldIdx` (`Zt`) builds has an own entry for a name exactly when an old child of the range is filed under it and the name is not `__proto__`, and the entry is the last such child |
| `KeyIndex.InheritedExactly` | Base/Collection/instruction/js/vue.js:9 | reading a name off the index gives something that is no slot exactly for an inherited name under which no old child is filed, and for `__proto__` |
| `KeyIndex.FirstSame` | Base/Collection/instruction/js/vue.js:9 | `findIdxInOld` (`w`): the first live slot of the half-open range that is the same kind of node, or none |
| `KeySafety.PatchableSurvives` | Base/Collection/instruction/js/vue.js:9 | when the new keys name different properties, and one with an inherited name (`__proto__` apart) belongs to an old child too, at every level, then no lookup is bad |
| `KeySafety.CollidingKeysFail` | Base/Collection/instruction/js/vue.js:9 | any two different keys that name one property: patching the three-element lists [a, k, b] into [k, k', p] looks up a slot that was emptied one turn before, and the source throws |
| `KeySafety.NumberAndStringCollide` | Base/Collection/instruction/js/vue.js:9 | every number and the string of its digits are such keys |
| `KeySafety.InheritedKeyFails` | Base/Collection/instruction/js/vue.js:9 | any inherited name as a new key without an old child of that key: the source takes an inherited value for a slot number and throws |
| `KeySafety.SharedInheritedKey` | Base/Collection/instruction/js/vue.js:9 | an inherited name that an old child has as well works, except `__proto__` |
| `Forests.SharedIsNotDisplayed` | Base/Collection/instruction/js/vue.js:9 | if two new children were given one element the result could not be displayed |
| `Patch.CreateElm` | Base/Collection/instruction/js/vue.js:9 | `createElm`: the new subtree consists of new nodes, shows the virtual node, and stands before the reference node; a reference node with another parent inserts nothing |
| `Patch.CreateTree` | Base/Collection/instruction/js/vue.js:9 | the first half of `createElm`: a complete detached subtree; no existing child list changes |
| `Patch.AddVnodes` | Base/Collection/instruction/js/vue.js:9 | `addVnodes` (`g`): the new nodes appear in order between what stood before and after them |
| `Patch.RemoveVnodes` | Base/Collection/instruction/js/vue.js:9 | `removeVnodes` (`b`): exactly the live slots of the range leave the document, emptied slots are skipped |
| `Accounting.TakeFront` | Base/Collection/instruction/js/vue.js:9 | when a new child is finished at the front with an old child's element, the account of who took which old child stays right |
| `Accounting.TakeBack` | Base/Collection/instruction/js/vue.js:9 | the same at the back |
| `Accounting.MakeNew` | Base/Collection/instruction/js/vue.js:9 | the same for new children that got a new element |
| `Accounting.StaleExactly` | Base/Collection/instruction/js/vue.js:9 | with nothing asked of the new keys: a keyed old child is gone exactly when a finished new child matches it |
| `Accounting.BadLookUpExactly` | Base/Collection/instruction/js/vue.js:9 | a lookup is bad exactly when it gives an inherited value, or the slot of an old child that a finished new child matches and that is empty or would be taken twice |
| `Accounting.ReusedExactly` | Base/Collection/instruction/js/vue.js:9 | with old and new keys that name different properties, a finished keyed child has the very old child it matches |
| `Accounting.IndexFresh` | Base/Collection/instruction/js/vue.js:9 | with new keys that name different properties the index built once by `createKeyToOldIdx` is never stale when it is consulted: the slot it names still holds its old child |
| `Accounting.NoMatch` | Base/Collection/instruction/js/vue.js:9 | when the index gives no matching old child, no old child that is left matches |
| `Reconcile.CreateKeyToOldIdx` | Base/Collection/instruction/js/vue.js:9 | `createKeyToOldIdx` (`Zt`) builds exactly the index that `BuiltMeaning` describes |
| `Reconcile.FindIdxInOld` | Base/Collection/instruction/js/vue.js:9 | the loop of `findIdxInOld` (`w`) finds the first live slot of the same kind |
| `Reconcile.LookUp` | Base/Collection/instruction/js/vue.js:9 | keyed children are looked up in the index, others by search; what is found may be a slot, something inherited or nothing |
| `Reconcile.LookUpDecides` | Base/Collection/instruction/js/vue.js:9 | after a lookup that is not bad, a matching slot is a live one behind the first; else no old child that is left matches: the half-open search misses nothing, since the last slot was compared before |
| `Reconcile.TakeByLookUp` | Base/Collection/instruction/js/vue.js:9 | neither end matches: the new child is served by what is looked up or gets a new element |
| `Reconcile.TakeElsewhere` | Base/Collection/instruction/js/vue.js:9 | the index is built once, when it is first needed, and the turn goes on by looking up |
| `Reconcile.CompareEnds` | Base/Collection/instruction/js/vue.js:9 | one turn of the main loop: it finishes one new child and keeps the whole loop invariant |
| `Reconcile.MoveRight` | Base/Collection/instruction/js/vue.js:9 | a node moved behind the last live old child: the child list is the old one with that node moved |
| `Reconcile.MoveLeft` | Base/Collection/instruction/js/vue.js:9 | a node moved in front of the first live old child |
| `Reconcile.PatchVnode` | Base/Collection/instruction/js/vue.js:9 | `patchVnode` (`x`): the old element now shows the new virtual node, and nothing outside the old subtree changed |
| `Reconcile.PatchChildren` | Base/Collection/instruction/js/vue.js:9 | the child part of `patchVnode`: the children shown are the new ones, whichever of the lists is undefined |
| `Reconcile.TakeStartStart` | Base/Collection/instruction/js/vue.js:9 | first against first: the pair is finished at the front and the loop invariant holds for the shorter ranges |
| `Reconcile.TakeEndEnd` | Base/Collection/instruction/js/vue.js:9 | last against last |
| `Reconcile.TakeStartEnd` | Base/Collection/instruction/js/vue.js:9 | first old against last new: the element moves behind the live old ones |
| `Reconcile.TakeEndStart` | Base/Collection/instruction/js/vue.js:9 | last old against first new: the element moves in front of the live old ones |
| `Reconcile.TakeInside` | Base/Collection/instruction/js/vue.js:9 | a looked-up old child is patched, its slot emptied and its element moved to the front |
| `Reconcile.TakeNothing` | Base/Collection/instruction/js/vue.js:9 | no old child matches: a new element is created in front of the live old ones |
| `Reconcile.AddRest` | Base/Collection/instruction/js/vue.js:9 | old children used up: the remaining new ones are created before the finished tail |
| `Reconcile.RemoveRest` | Base/Collection/instruction/js/vue.js:9 | new children finished: exactly the live old ones are removed |
| `Reconcile.UpdateChildren` | Base/Collection/instruction/js/vue.js:9 | `updateChildren` (`C`), for every input on which no lookup is bad: terminates; the children shown are exactly the new ones in order; only nodes of the old children and new nodes are used; every old element is taken over by one new child of the same kind or removed; children that match one by one at the front, or behind them at the back, take over each other's elements; a new child without key gets a new element only when all old children of its kind are taken; with keys that name different properties a keyed child keeps the element of the old child it matches |
| `Alignment.AlignedOther` | Base/Collection/instruction/js/vue.js:9 | when neither end matches, nothing that is done in between disturbs what was matched at the front and at the back |
| `Alignment.AlignedDone` | Base/Collection/instruction/js/vue.js:9 | at the end of the loop all children that match at the front, or behind them at the back, were matched to each other |
| `Reconcile.TakenExactlyOnce` | Base/Collection/instruction/js/vue.js:9 | conservation: a new child has the element of an old one exactly when it took it over, so no element is used twice and none is both kept and removed |
| `Reconcile.PatchRoot` | Base/Collection/instruction/js/vue.js:9 | `patch`, for every input on which no lookup is bad: the document shows the new tree exactly as creating it from scratch would; the root element is kept exactly for a node of the same kind, with the kind of an input field read off the attributes; another kind is replaced in place |
| `Reconcile.Replace` | Base/Collection/instruction/js/vue.js:9 | replacing a root: created behind the old one, which is then removed; its parent's other children stay |
| `Getters.LeavesSuffice` | Base/Collection/instruction/js/vue.js:9 | a computed value depends on nothing but the cells its evaluation reads, nested computed properties included |
| `Getters.LeavesAreCells` | Base/Collection/instruction/js/vue.js:9 | those are existing cells |
| `Sequences.RemovedOnce` | Base/Collection/instruction/js/vue.js:9 | `remove` on a list without duplicates takes out exactly the one element |
| `Reactivity.AddDepKeeps` | Base/Collection/instruction/js/vue.js:9 | `addDep` keeps the subscription graph consistent: a watcher is in a list once exactly when the dependency is in its old or new ones |
| `Reactivity.CleanupKeeps` | Base/Collection/instruction/js/vue.js:9 | `cleanupDeps` leaves the watcher subscribed to exactly the dependencies of its last evaluation |
| `Reactivity.TeardownKeeps` | Base/Collection/instruction/js/vue.js:9 | after `teardown` no dependency lists the watcher |
| `Reactivity.WriteKeeps` | Base/Collection/instruction/js/vue.js:9 | after a write and `notify`, every watcher is up to date or marked as stale |
| `Reactivity.EvaluatedKeeps` | Base/Collection/instruction/js/vue.js:9 | an evaluation that ends leaves its watcher with the fresh value and exactly the leaves as dependencies |
| `Reactivity.ListensToItsLeaves` | Base/Collection/instruction/js/vue.js:9 | a clean watcher is listed by a cell exactly when its value depends on that cell, also through nested computed properties |
| `Reactivity.WriteQueues` | Base/Collection/instruction/js/vue.js:9 | a write queues exactly the active watchers of the program whose value depends on the cell, beside those queued before |
| `Runtimes.Runtime.constructor` | Base/Collection/instruction/js/vue.js:9 | a new runtime is consistent: computed properties are dirty and subscribed to nothing |
| `Runtimes.Runtime.AddDep` | Base/Collection/instruction/js/vue.js:9 | `addDep`: the watcher on top of the stack gains the dependency, the list gains the watcher at most once |
| `Runtimes.Runtime.ReadProperty` | Base/Collection/instruction/js/vue.js:9 | the reactive getter returns the cell and tells only the watcher on top of the stack |
| `Runtimes.Runtime.DependAll` | Base/Collection/instruction/js/vue.js:9 | `Watcher.depend`: the watcher on top of the stack takes over all dependencies of another one |
| `Runtimes.Runtime.RunGetter` | Base/Collection/instruction/js/vue.js:9 | running a getter yields the value of recomputation, and the collected dependencies are exactly its leaves |
| `Runtimes.Runtime.ReadComputedProperty` | Base/Collection/instruction/js/vue.js:9 | the computed getter (`qe`) returns the value of evaluating afresh; a clean property changes nothing but the dependencies of the watcher on top of the stack |
| `Runtimes.Runtime.Evaluate` | Base/Collection/instruction/js/vue.js:9 | `evaluate`: the lazy watcher is clean afterwards, watchers of higher rank are untouched |
| `Runtimes.Runtime.Get` | Base/Collection/instruction/js/vue.js:9 | `get`: evaluation with push and pop; the watcher's subscriptions are exactly what this evaluation read, the stack is restored |
| `Runtimes.Runtime.Push` | Base/Collection/instruction/js/vue.js:9 | `pushTarget` (`O`): the watcher being evaluated is put on the stack, if there is one |
| `Runtimes.Runtime.Pop` | Base/Collection/instruction/js/vue.js:9 | `popTarget` (`S`): the last one put on the stack is evaluated on, or none |
| `Runtimes.Runtime.CleanupDeps` | Base/Collection/instruction/js/vue.js:9 | `cleanupDeps`: new dependencies become the old ones, and only dropped ones lose the watcher |
| `Runtimes.Runtime.RemoveFrom` | Base/Collection/instruction/js/vue.js:9 | the backwards loop over dependencies removes the watcher from exactly the dropped ones |
| `Runtimes.Runtime.Teardown` | Base/Collection/instruction/js/vue.js:9 | `teardown` outside the watcher's own evaluation: inactive, listed nowhere, everything else unchanged |
| `Runtimes.Runtime.Update` | Base/Collection/instruction/js/vue.js:9 | `update`: a lazy watcher becomes dirty, another one is queued |
| `Runtimes.Runtime.Notify` | Base/Collection/instruction/js/vue.js:9 | `notify`: exactly the subscribers are updated |
| `Runtimes.Runtime.Write` | Base/Collection/instruction/js/vue.js:9 | the reactive setter: an equal value does nothing, another one notifies exactly the subscribers, and the graph stays consistent |
| `Runtimes.Runtime.Read` | Base/Collection/instruction/js/vue.js:9 | a read of a computed property from outside gives the value of recomputation |
| `Runtimes.Runtime.Run` | Base/Collection/instruction/js/vue.js:9 | `run` of a queued watcher: an active one is up to date afterwards, an inactive one does nothing |
| `Runtimes.Runtime.Watch` | Base/Collection/instruction/js/vue.js:9 | a new watcher is evaluated at once and up to date |
| `Runtimes.Runtime.RunAllQueued` | Base/Collection/instruction/js/vue.js:9 | the queued watchers run once each, in the order of their ids; afterwards every active watcher has the value of computing it now, and inactive ones are as before |
| `Runtimes.Runtime.Execute` | Base/Collection/instruction/js/vue.js:9 | over any program of writes, reads, and creating, running and tearing down watchers, the values read, the values and activity of the watchers, and which of them are queued are those of a system without any cache or dependency list |
| `Runtimes.Runtime.Step` | Base/Collection/instruction/js/vue.js:9 | one operation does to the cells, the watchers and the queue what it does in that system: a changed cell queues the watchers that depend on it, a queued watcher that is run computes its value again and leaves the queue |
| `Scheduling.AccountsStep` | Base/Collection/instruction/js/vue.js:9 | accepting a watcher that is not pending, or running one that is, keeps the account of the log |
| `Scheduling.EnqueuedThenRan` | Base/Collection/instruction/js/vue.js:9 | when nothing is pending, each acceptance of a watcher is followed by exactly one run of it before it is accepted again |
| `Scheduling.Place` | Base/Collection/instruction/js/vue.js:9 | the search from the right finds the place that keeps the pending part of the queue increasing |
| `Scheduling.Scheduler.QueueWatcher` | Base/Collection/instruction/js/vue.js:9 | `queueWatcher` (`Re`) in any state, re-entrantly too: a pending watcher is ignored, another one is appended or spliced in behind the running one; the flag is set exactly for pending watchers and one flush is requested |
| `Scheduling.Scheduler.StartRun` | Base/Collection/instruction/js/vue.js:9 | the running watcher stops being pending before its body runs, so it may queue itself again |
| `Scheduling.Scheduler.RunNext` | Base/Collection/instruction/js/vue.js:9 | one turn of the flush loop runs the pending watcher with the least id; the array is spliced behind the index only, and what the run queues is pending afterwards |
| `Scheduling.Scheduler.Begin` | Base/Collection/instruction/js/vue.js:9 | the start of `flushSchedulerQueue`: the queue is sorted and everything in it is pending |
| `Scheduling.Scheduler.Reset` | Base/Collection/instruction/js/vue.js:9 | `resetSchedulerState` (`Ie`): nothing is pending and nothing is lost |
| `FlushOrder.QueuedRunsLater` | Base/Collection/instruction/js/vue.js:9 | when each run is that of the least pending id and nothing is pending at the end: whatever a run queues runs after it, and what runs was pending at the start or queued by an earlier run |
| `Scheduling.Scheduler.Flush` | Base/Collection/instruction/js/vue.js:9 | `flushSchedulerQueue` (`Me`), whatever the runs queue: each run is that of the least pending id; every watcher that was pending runs, everything a run queues runs after it, nothing else runs, and nothing is pending afterwards |
| `Scheduling.Scheduler.FlushForward` | Base/Collection/instruction/js/vue.js:9 | when runs queue only larger ids from a finite set, the flush terminates and runs every watcher at most once, in strictly increasing order, although the array is spliced while it is iterated; what a run queues runs after it, and nothing else runs |
| `NextTicks.NextTick.Register` | Base/Collection/instruction/js/vue.js:9 | `nextTick` (`re`): the callback joins the current batch; one batch is outstanding afterwards, a new one only if there was none |
| `NextTicks.NextTick.Call` | Base/Collection/instruction/js/vue.js:9 | a callback that registers others while it runs |
| `NextTicks.NextTick.FlushCallbacks` | Base/Collection/instruction/js/vue.js:9 | `flushCallbacks` (`te`): calls exactly what was registered before, in order; exactly what those calls register forms the next batch |
| `NextTicks.NextTick.RunToEnd` | Base/Collection/instruction/js/vue.js:9 | over all batches, every callback is called exactly once in the order of registration, what the calls register included, and nothing is outstanding at the end |
| `Nesting.EveryStartIsEnded` | Base/Collection/instruction/js/vue.js:9 | events that end with nothing open have, for every non-unary start, one matching end with the same tag, and in between the tag stays open |
| `Nesting.OneCloseEach` | Base/Collection/instruction/js/vue.js:9 | one conditional close for `p` and one for optional tags are enough to keep the content model, because it is closed under prefixes |
| `Nesting.ContentModelPrefix` | Base/Collection/instruction/js/vue.js:9 | the content model is closed under prefixes |
| `Scanning.TokensNest` | Base/Collection/instruction/js/vue.js:9 | for every token sequence, with stray, missing and mis-nested end tags: the events are well nested, the open tags respect the content model, and at the end of input nothing is open |
| `Scanning.TokenNests` | Base/Collection/instruction/js/vue.js:9 | each single token keeps that |
| `Scanning.EndsReplay` | Base/Collection/instruction/js/vue.js:9 | closing from the top down to a position is well nested and leaves what is below |
| `Scanning.ScanIsFold` | Base/Collection/instruction/js/vue.js:9 | scanning an input is reading its tokens and folding them over the open tags and the events |
| `Scanning.StartTagAt` | Base/Collection/instruction/js/vue.js:9 | a start tag with its attributes and slash consumes at least one character; one that is not closed by `>` is consumed as far as it matched |
| `Scanning.DeclarationAt` | Base/Collection/instruction/js/vue.js:9 | comments, conditional comments and doctypes consume at least one character |
| `Scanning.Read` | Base/Collection/instruction/js/vue.js:9 | one turn of the main loop that is not the last one consumes at least one character |
| `Scanning.FailsExactly` | Base/Collection/instruction/js/vue.js:9 | the parse fails exactly when its loop comes to a kept comment while no element is open |
| `Scanning.CommentAloneFails` | Base/Collection/instruction/js/vue.js:9 | a comment and nothing else is such an input, exactly when comments are kept |
| `Nesting.Innermost` | Base/Collection/instruction/js/vue.js:9 | the innermost open tag of a name, regardless of case, or none |
| `Parsing.Parser.OnStart` | Base/Collection/instruction/js/vue.js:9 | `start` of the tree builder: pushed unless unary; the element has `v-pre` exactly when the tag has that attribute and no open element has it, and it is in force as long as that element is open |
| `Parsing.Parser.OnEnd` | Base/Collection/instruction/js/vue.js:9 | `end` of the tree builder: pops the element of that tag, never an empty stack |
| `Parsing.Parser.OnComment` | Base/Collection/instruction/js/vue.js:9 | `comment` of the tree builder: with no open element the source fails, otherwise the comment is passed on |
| `Parsing.Parser.FindOpen` | Base/Collection/instruction/js/vue.js:9 | the search from the top for the tag that an end tag closes |
| `Parsing.Parser.CloseFrom` | Base/Collection/instruction/js/vue.js:9 | all tags from the top down to the matching one are ended, in that order, on both stacks |
| `Parsing.Parser.ParseEndTag` | Base/Collection/instruction/js/vue.js:9 | `parseEndTag`: a matching tag closes everything above it; a stray `</br>` and `</p>` stand for elements; any other stray tag does nothing; without a name everything is closed |
| `Parsing.Parser.StrayParagraph` | Base/Collection/instruction/js/vue.js:9 | a stray `</p>` is an empty paragraph |
| `Parsing.Parser.HandleStartTag` | Base/Collection/instruction/js/vue.js:9 | `handleStartTag`: closes exactly what may not contain the tag, then opens it unless it is unary, with `v-pre` found on it or not; the content model holds |
| `Parsing.Parser.ParseStartTag` | Base/Collection/instruction/js/vue.js:9 | `parseStartTag`: the tag with its name, attributes and slash, and what remains, as the reference scanner reads it |
| `Parsing.Parser.ParseMarkup` | Base/Collection/instruction/js/vue.js:9 | markup at the front: recognised exactly when the reference scanner recognises it, with the effect of its token; a newline after `<pre>` and `<textarea>` is dropped; offset and remaining length keep their sum |
| `Parsing.Parser.ParseRawText` | Base/Collection/instruction/js/vue.js:9 | inside `script`, `style` and `textarea`: text up to the end tag, without the first newline of a textarea; the element is closed even when its end tag is missing |
| `Parsing.Parser.ParseText` | Base/Collection/instruction/js/vue.js:9 | text up to the next markup, as the reference scanner reads it |
| `Parsing.Parser.Turn` | Base/Collection/instruction/js/vue.js:9 | one turn of the main loop of `parseHTML` (`br`) has exactly the effect of the tokens the reference scanner reads; offset plus remaining length is constant until the trailing text |
| `Parsing.Parser.Parse` | Base/Collection/instruction/js/vue.js:9 | for every input, `parseHTML` driving `parse` (`Cr`) tells the one story of it: the spans cut up the whole input, each is justified where it stands, and they make the events, up to the ends of what is open at last; an input without `<` is one text. The events are well nested with nothing open, both stacks stay in step and end empty; it fails exactly when its loop comes to a kept comment outside all elements |
| `StoryProofs.TurnReads` | Base/Collection/instruction/js/vue.js:9 | every turn reads one justified span: text up to the next markup, a comment, conditional comment, doctype, end tag, start tag with the newline dropped after it, torn start tag with the text after it, raw text with its end tag, or a rest that is no markup; start events carry the captured name and attributes, comments the text between `<!--` and the first `-->` |
| `StoryProofs.ScanTells` | Base/Collection/instruction/js/vue.js:9 | the spans of all turns are a story of the input |
| `StoryProofs.EndIs` | Base/Collection/instruction/js/vue.js:9 | an end tag ends everything down to the innermost open tag of its name, case aside; a stray one stands for `<br>`, an empty paragraph or nothing |
| `StoryProofs.StartDone` | Base/Collection/instruction/js/vue.js:9 | a start tag first ends an open paragraph and an equal open tag by the two rules, then opens its element unless it is void or closed by a slash |
| `Stories.StoryCovers` | Base/Collection/instruction/js/vue.js:9 | the sources of the spans, one after the other, are the input: nothing is lost, repeated or moved |
| `Stories.PlainStory` | Base/Collection/instruction/js/vue.js:9 | an input without `<` gives one text with all of it |
| `StoryUniqueness.SpanOnce` | Base/Collection/instruction/js/vue.js:9 | the open tags and the rest of the input determine the next span and its events |
| `StoryUniqueness.StoryOnce` | Base/Collection/instruction/js/vue.js:9 | so an input has one story, and the events are determined without the scanner |
| `Normalization.NormalizeArrayChildren` | Base/Collection/instruction/js/vue.js:9 | `normalizeArrayChildren` (`ve`): the loop with nested calls and in-place edits of the last node computes the coalesced flattened list |
| `Normalization.NormalShape` | Base/Collection/instruction/js/vue.js:9 | the result has no nested array and no two adjacent text nodes |
| `Normalization.NormalMarkup` | Base/Collection/instruction/js/vue.js:9 | all text and the order of everything else are kept |
| `Normalization.NormalIdempotent` | Base/Collection/instruction/js/vue.js:9 | a second application changes nothing |
| `Normalization.NormalFixed` | Base/Collection/instruction/js/vue.js:9 | a list without nested arrays and adjacent texts is left as it is |
| `Normalization.ChildReplaced` | Base/Collection/instruction/js/vue.js:9 | wherever it stands, an undefined or boolean child and an empty primitive is dropped, an array is replaced by its items and another primitive by a text node |
| `Normalization.TextsJoin` | Base/Collection/instruction/js/vue.js:9 | two texts side by side become one; with the two rows above this determines the result |
| `Normalization.CoalesceNested` | Base/Collection/instruction/js/vue.js:9 | normalising a nested array on its own and joining it at the border is the same as going on through it |
| `Templates.StaticInterp` | Base/Collection/instruction/js/vue.js:9 | a static node means the same in every scope |
| `Marking.StaticPlace` | Base/Collection/instruction/js/vue.js:9 | being static does not depend on loops further out or on hoisting |
| `Marking.Optimizer.MarkStatic` | Base/Collection/instruction/js/vue.js:9 | `markStatic` (`Jr`) writes flags on nodes, returns early at unreserved tags and clears the flag of a node when a child or block is not static: what it leaves is exactly `Static`, unset flags counting as false. `Static` is closed downwards |
| `Marking.Optimizer.MarkStaticRoots` | Base/Collection/instruction/js/vue.js:9 | `markStaticRoots` (`qr`) leaves exactly `StaticRoot` and, on roots, whether they are inside a loop; it does not go into roots |
| `Marking.Optimizer.Optimize` | Base/Collection/instruction/js/vue.js:9 | `optimize` (`Kr`): both passes on a fresh template. For every path into the template: the node is flagged static exactly when the first pass gets there and nothing in its tree depends on the scope or has a tag that is not plain; it is flagged as root exactly when it is static, more than one text, and inside no other root; and a root knows whether an enclosing element has a loop |
| `Marking.Optimizer.IsDirectChildOfTemplateFor` | Base/Collection/instruction/js/vue.js:9 | `isDirectChildOfTemplateFor` (`Gr`): the search up the enclosing elements finds a loop on a template with templates only in between |
| `Marking.Optimizer.IsStatic` | Base/Collection/instruction/js/vue.js:9 | `isStatic` (`Wr`) for an element, apart from its children |
| `Marking.MarkedAt` | Base/Collection/instruction/js/vue.js:9 | the flag of the first pass at every path: visited and fixed |
| `Marking.RootedAt` | Base/Collection/instruction/js/vue.js:9 | the flags of the second pass at every path |
| `Hoisting.StaticIsFixed` | Base/Collection/instruction/js/vue.js:9 | `Static` at a place is being a fixed tree among the enclosing elements, where the first pass gets |
| `Templates.StaticBelow` | Base/Collection/instruction/js/vue.js:9 | all children of a static node are static |
| `Codegen.Gen` | Base/Collection/instruction/js/vue.js:9 | `genElement` (`ti`) comes back to the same node with one more processed flag: terminates by unset flags and subtree size, and only adds static render functions |
| `Codegen.GenAll` | Base/Collection/instruction/js/vue.js:9 | one code per child; static render functions are only added |
| `StaticTrees.StaticGen` | Base/Collection/instruction/js/vue.js:9 | the code of a static node uses neither the scope nor other static trees, and nothing is hoisted out of it |
| `StaticTrees.ClosedEval` | Base/Collection/instruction/js/vue.js:9 | such code has one value, in whatever scope and with whatever cache |
| `StaticTrees.GenClosed` | Base/Collection/instruction/js/vue.js:9 | every collected static render function is such code |
| `StaticTrees.HoistedTwice` | Base/Collection/instruction/js/vue.js:9 | `renderStatic` (`ot`): the second render of a hoisted tree equals the first exactly when the tree is re-rendered in a loop, is no template, or has no template directly inside; otherwise it holds garbage |
| `StaticTrees.CloneSame` | Base/Collection/instruction/js/vue.js:9 | a cached tree survives the one-level clone when no template is directly inside a hoisted template |
| `StaticTrees.CloneBreaks` | Base/Collection/instruction/js/vue.js:9 | and does not when there is one |
| `Conditions.SoundEverywhere` | Base/Collection/instruction/js/vue.js:9 | the condition on the template gives the condition on what is rendered in every scope |
| `CodegenProof.EvalGen` | Base/Collection/instruction/js/vue.js:9 | the code of a node, with any processed flags, evaluates to what is left of the node's meaning, and to a proper single node exactly when the conditions hold |
| `CodegenProof.EvalHoisted` | Base/Collection/instruction/js/vue.js:9 | the same for a hoisted tree, rendered or cloned from the cache |
| `CodegenProof.EvalTurnsGen` | Base/Collection/instruction/js/vue.js:9 | the turns of `_l` |
| `CodegenProof.EvalOthersGen` | Base/Collection/instruction/js/vue.js:9 | if/else-if/else chains |
| `CodegenProof.EvalBodyGen` | Base/Collection/instruction/js/vue.js:9 | elements and templates with their children |
| `CodegenProof.EvalAllGen` | Base/Collection/instruction/js/vue.js:9 | children lists, with the cache threaded from left to right |
| `CodegenProof.ListedRight` | Base/Collection/instruction/js/vue.js:9 | the normalisation type of `getNormalizationType` is enough: the children are proper nodes exactly when every child is sound |
| `CodegenProof.NormTypeExactly` | Base/Collection/instruction/js/vue.js:9 | `getNormalizationType` is 2 exactly when a child or a block attached to it is a loop, template or slot, and else 1 exactly when one may be a component |
| `CodegenProof.NoNormalizationNeeded` | Base/Collection/instruction/js/vue.js:9 | when full normalisation is skipped the generated child array evaluates to a list of nodes without nested arrays |
| `CodegenProof.RendersMeanTemplate` | Base/Collection/instruction/js/vue.js:9 | over any sequence of scopes with the shared cache, every render has the trees that a direct interpreter of the template gives, up to joined, split and empty text; the tags with their attributes, the characters and the comments in it are exactly those that the template shows in that scope; and it is a proper tree exactly when no turn of a single looping child ends in a template or loop block and the root is one node |
| `ShownTokens.InterpShown` | Base/Collection/instruction/js/vue.js:9 | the direct interpreter gives a tag with attributes, a character or a comment exactly when an element, text or comment below the node has it, in some turn of each loop on the way and in the block that each condition selects |
| `CodegenProof.ElementRenders` | Base/Collection/instruction/js/vue.js:9 | an element without loop and condition renders as one element of its tag, whose attributes are none, the fixed ones, or those of the scope of that render |
| `Trees.SameMarkupSameTrees` | Base/Collection/instruction/js/vue.js:9 | rendered markup determines the trees up to joined, split and empty text |
| `Trees.FeedMarkup` | Base/Collection/instruction/js/vue.js:9 | reading the markup of a value back gives its trees |
| `CodegenProof.LoopWithTemplateElseIsImproper` | Base/Collection/instruction/js/vue.js:9 | a single looping child with a template as else block leaves an array among the children |
| `CodegenProof.TemplateInTemplateBreaks` | Base/Collection/instruction/js/vue.js:9 | a static template in a static template: the second render holds garbage |
| `Traversals.Traversal.Collect` | Base/Collection/instruction/js/vue.js:9 | `_traverse` (`oe`) terminates on graphs with cycles; what it adds is reached from the value, and everything reached is covered |
| `Traversals.ExploredIsReached` | Base/Collection/instruction/js/vue.js:9 | the ids remembered are those remembered before plus those reachable past them, and the properties read are those of the objects reached |
| `Traversals.Traversal.Traverse` | Base/Collection/instruction/js/vue.js:9 | `traverse` (`ie`), when the objects without an observer that the value reaches form no cycle among themselves: it ends, the getters run are exactly those of properties of reachable objects, and the set of ids is empty again |
| `Traversals.WalkCovered` | Base/Collection/instruction/js/vue.js:9 | along every walk that avoids the ids remembered before, all objects are remembered and read |
| `Traversals.BelowReaches` | Base/Collection/instruction/js/vue.js:9 | a walk from a value sees only the part of the graph below it |
| `Activation.Components.constructor` | Base/Collection/instruction/js/vue.js:9 | a fresh tree: nothing was activated or deactivated |
| `Activation.Components.IsInInactiveTree` | Base/Collection/instruction/js/vue.js:9 | `isInInactiveTree` (`Ee`): some ancestor is inactive |
| `Activation.Components.Activate` | Base/Collection/instruction/js/vue.js:9 | `activateChildComponent` (`je`) from outside: below a dead component nothing changes; else every component below is inactive where it or an ancestor is directly inactive and active elsewhere, and the hooks of exactly those that changed ran, children before parents and from left to right; nothing outside the subtree changed |
| `Activation.Components.ActivateBelow` | Base/Collection/instruction/js/vue.js:9 | the recursive call, with the same guarantees: it stops at directly inactive components, and at active ones, below which nothing was left out |
| `Activation.Components.Wake` | Base/Collection/instruction/js/vue.js:9 | the common part: the subtree is as the direct flags say, and its hooks ran in order |
| `Activation.Components.Deactivate` | Base/Collection/instruction/js/vue.js:9 | `deactivateChildComponent` (`Ne`) from outside: below a dead component nothing changes; else everything below is inactive, and the hooks of exactly those that changed ran in that order |
| `Activation.Components.Sleep` | Base/Collection/instruction/js/vue.js:9 | the recursive part: the whole subtree is inactive, and its hooks ran in order |
| `Activation.Components.Run` | Base/Collection/instruction/js/vue.js:9 | every sequence of direct calls leaves the flags and hooks that the calls leave one by one, and `_inactive` holds exactly at dead components |
| `Activation.Components.Step` | Base/Collection/instruction/js/vue.js:9 | one call, as a function of the tree, the direct flags and the state before it |
| `Activation.AwakeBelow` | Base/Collection/instruction/js/vue.js:9 | below an active component that is not dead everything is active or, where dead, inactive: no component there was left without its first activation |
| `Activation.TourHooks` | Base/Collection/instruction/js/vue.js:9 | the hooks of a child follow those of the children before it |
| `Activation.DirectChange` | Base/Collection/instruction/js/vue.js:9 | a direct call below a dead component changes nobody's state; otherwise only its own subtree can change |
| `Activation.InactiveAboveIsDeadAbove` | Base/Collection/instruction/js/vue.js:9 | looking at `_inactive` of the ancestors is looking for a directly inactive one |
| `Activation.TourEnd` | Base/Collection/instruction/js/vue.js:9 | the hook runs after the children and is one change |
| `KeepAlives.UsesMeaning` | Base/Collection/instruction/js/vue.js:9 | the reference order: exactly the keys used, once each, by last use |
| `KeepAlives.TouchIsLast` | Base/Collection/instruction/js/vue.js:9 | one render takes the last `max` distinct keys to the last `max` distinct keys |
| `KeepAlives.UsedMatches` | Base/Collection/instruction/js/vue.js:9 | a render keeps `keys` and the live cache entries in step exactly when its key does not merely share the property name of another one |
| `KeepAlives.NumberThenStringCollides` | Base/Collection/instruction/js/vue.js:9 | two renders, with a number as key and then with the string of its digits: the second one shows the first one's instance, and two keys stand for one entry even when only one is allowed |
| `KeepAlives.PruneMatches` | Base/Collection/instruction/js/vue.js:9 | `pruneCache` (`Dt`) keeps them in step exactly when no pruned entry was stored under a number |
| `KeepAlives.NumberKeyGoesStale` | Base/Collection/instruction/js/vue.js:9 | with a number as key, pruning leaves the key behind and the next render stores it twice |
| `KeepAlives.StepAgrees` | Base/Collection/instruction/js/vue.js:9 | one render agrees with the account that forgets nothing and shows an instance again if its key is among the last `max` |
| `KeepAlives.KeepAlive.PruneCacheEntry` | Base/Collection/instruction/js/vue.js:9 | `pruneCacheEntry` (`Pt`): the entry and the first such key go; the instance is destroyed unless its tag is the one shown |
| `KeepAlives.KeepAlive.Render` | Base/Collection/instruction/js/vue.js:9 | `render` of keep-alive: a hit shows the cached instance, a miss caches the child and may evict the oldest key, whose instance is destroyed unless its tag is the one shown; a child that a filter turns away passes by |
| `KeepAlives.KeepAlive.PruneCache` | Base/Collection/instruction/js/vue.js:9 | `pruneCache`: exactly the named entries that the filter rejects are emptied, each once, and their instances destroyed unless their tag is the one shown |
| `KeepAlives.KeepAlive.Run` | Base/Collection/instruction/js/vue.js:9 | after any access history `keys` is the last `max` distinct keys by last use, and each render showed the instance of the naive account |
| `KeepAlives.KeepAlive.RunAll` | Base/Collection/instruction/js/vue.js:9 | with string keys, over any mix of renders and filter changes the component is what the operations one by one make of it; `keys` stays without duplicates, equal to the live entries, and within `max` |
| `KeepAlives.KeepAlive.Apply` | Base/Collection/instruction/js/vue.js:9 | one render, or a new filter that is applied to the cache at once |

## Left out

- Reconcile.UpdateChildren: does not model what is left of the document after a bad lookup threw, `removeOnly`, transitions and delayed removal (removal is immediate), and the `async`/static shortcuts of `patchVnode`; module hooks are reduced to writing the element's data.
- Reconcile.PatchRoot: does not model hydration, component placeholders and the case of a missing old or new virtual node.
- Patch.CreateElm: does not model components, namespaces, scoped-style attributes and insertion into a parent of another node than the one given.
- Dom.Document.InsertBefore: does not model the errors the browser raises when the reference node is no child of the parent or the parent lies inside the node; the patch never gets there.
- Runtimes.Runtime.Execute: does not model `sync` watchers, deep and user watchers' callbacks, writes from inside an evaluation, computed setters, child observers of objects and arrays, and errors thrown by getters; a getter is a pure function of what it reads, and computed properties do not depend on themselves.
- Runtimes.Runtime.Teardown: does not model `teardown` during the watcher's own `get`, and leaves out the list of watchers of the component. Watchers and dependency lists are records in tables indexed by id, not separate objects, so aliasing between them is not expressed.
- Runtimes.Runtime.RunAllQueued: no watcher is queued while the queue runs; a queue that grows while it runs is modelled in `Scheduler`.
- Scheduling.Scheduler.Flush: does not model the updated and activated hooks, the development-time limit on updates (absent in this build) and flushes that never end; what the k-th run queues is given by a script.
- NextTicks.NextTick.RunToEnd: does not model promises and the choice between micro and macro tasks; a batch starts at some later time and is not interrupted.
- Parsing.Parser.Parse: does not model the contents of the AST, attribute processing, whitespace trimming, entity decoding and the `<pre>` flag; regular expressions are abstract matchers that match at least one character at the front. A failing handler is recorded and the scan goes on, where the source stops.
- CodegenProof.RendersMeanTemplate: does not model slots, `v-once`, `v-pre`, `inline-template`, directives, components and functional components, refs and keys in the data object; `_l` iterates a list of items (or null) and not numbers or objects. Attributes are none, fixed or a function of the scope.
- Marking.Optimizer.MarkStatic: nodes are named by paths and the flags are maps over paths; the enclosing elements are passed along as a list instead of being found through `parent` fields. `v-once` and `v-pre` are not modelled.
- Codegen.Gen: the processed flags and the list of static render functions are passed along as values instead of being written to the node and the compiler state.
- Normalization.NormalizeArrayChildren: does not model the keys given to nodes of nested `v-for` lists, symbols, and the sharing of text nodes between old and new lists.
- Traversals.Traversal.Collect: asks that the objects without an observer that are reached form no cycle among themselves; there the source does not terminate.
- Activation.Components.Run: the tree is fixed, and the queued activation path, which overwrites `_inactive`, is not part of this model. Errors in hooks are not modelled.
- KeepAlives.KeepAlive.Run: asks for children that the filters admit and for keys that differ as property names; a negative or changing `max` is not modelled.
- KeepAlives.KeepAlive.RunAll: asks for string keys, by the condition above.
- Plugins, option merging, events (`$on`, `$once`), props, provide/inject, async components, server rendering and development tools.
- The eight other `vue.js` copies, the Objective-C headers and the data tables, which add no logic.
