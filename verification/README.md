# Verified models of PyLinda and Minimal

PyLinda is a tuplespace server; Minimal is the C library that represents its values and types. This project
models the parts of both whose correctness rests on an argument over a whole structure or a whole run, and
proves that argument in Dafny.

* **Reference counting in Minimal** (`HeapGraph`, `CyclicGarbage`, `RefCount`). A heap of objects with counts;
  releasing a reference may destroy an object, or look for a cycle that nothing outside refers to and destroy
  that. Counts stay exact through all nested releases, and where everything was held a release succeeds, and
  frees exactly the objects that are no longer held from outside the heap, exactly if each of these can be
  destroyed.
* **Copying values** (`ValueCopy`). The memoised copy of a graph of values is an isomorphic graph of new
  objects, with counts that are exact again.
* **The types a type depends on** (`TypeList`), the **order on syntax trees** (`SyntaxTrees`,
  `SyntaxTreeOrder`) and **syntax trees as XML** (`SyntaxTreeXml`, `Decimal`).
* **Product conversions** (`ConvertValue`). The register programs that re-associate nested tuples.
* **The tuplespace server** (`TupleMatching`, `TupleSpaceSteps`, `TupleSpaceRuns`, `TupleSpaceDelivery`,
  `TupleSpaceServer`). Putting,
  reading, taking and collecting tuples with waiting threads, and threads and processes that come and leave:
  conservation of tuples, one reply per request, nobody overlooked, and when the record of blocked threads
  agrees with who waits.
* **References between tuplespaces** (`SpaceGraph`, `TupleSpaceContainer`). Dropping a reference deletes
  exactly the tuplespaces that can no longer be reached from a process or the universal tuplespace, where the
  deadlock tests on the way answer.
* **The deadlock test** (`Deadlock`). What it answers, when it fails, and when it answers at all; and what that
  means for the removal of references, which runs it first (`ReferenceRemoval`).
* **Protocols on a tuplespace**: stable marriage (`Marriage`), the distributed prime sieve (`SieveNumbers`,
  `PrimeSieve`, `PrimeSieveSteps`, `PrimeSieveResult`, `PrimeSieveRuns`, `PrimeSieveTokens`) and dining
  philosophers (`Philosophers`), for any number of participants, as step relations.
* **Globally unique ids** (`Hexadecimal`, `Guid`).

`Graphs`, `Pigeonhole` and `Options` hold what several of these share.

Objects that the source updates in place are classes (`Heap`, `CyclicGarbageList`, `Copier`, `Collector`,
`TupleSpaces`, `Server`, `Leaves`, `Generator`); their methods are proved against relations and functions on the
state, and the lemmas say what those mean over runs. Functions written with loops are methods with loops.

## What the proofs show about the code

* The tree of a pointer type holds the name of a type as a C string. The collector walks nothing there, but the
  destructor hands the string to `Minimal_delReference` (`minimal/src/syntax_tree.c:999-1001`). The other
  destructors release something that is no object only where a child is missing that they do not test: the
  layer, parameters or code of a function value; a sum, pointer or syntax-tree value without its content; and
  the definition of a type spec or bracket, the parts of a call, let, operator, index or if, an argument, the
  parameters or body of a function definition, or a branch of a sequence, product, sum, function type or tuple.
  Where everything is held, a release succeeds exactly if nothing of this kind becomes unheld
  (`RefCount.SuccessIsExact`, `RefCount.Heap.DelReference`); from the first such release on the source defines
  nothing. A type spec with a pointer type in it is an example (`RefCount.PointerSpecIsDoomed`).
* When a process leaves, its threads are taken out of the record of blocked threads but stay in the blocked
  lists (`linda/src/linda/server.py:528-531`). A tuplespace is deleted together with its blocked list, which nothing
  looks at (`linda/src/linda/tscontainer.py:157-171`), while the threads in it stay recorded. And a thread that asks
  in a tuplespace that is missing was recorded before it is looked up (`linda/src/linda/server.py:231-234`). The
  record agrees with who waits in all states of a run exactly if no process leaves while one of its threads is
  parked or has a reply on its way, no space is deleted in which a thread is parked, and no thread asks in a
  missing space (`TupleSpaceRuns.RecordsAgreeExactly`). Otherwise unblocking the thread can trip the assertion
  (`linda/src/linda/server.py:586`), a tuple that is handed to it is lost (`linda/src/linda/tuplespace.py:114`,
  `TupleSpaceRuns.LeavingLosesTheTuple`), or its request is never answered
  (`TupleSpaceRuns.DroppingStrandsTheTaker`, `TupleSpaceRuns.LeavingTakesTheSpace`).
* Only references at the top level of a tuple are in the ledger (`linda/src/linda/utils.py:46-72`). A space that
  is mentioned only inside a nested tuple is not kept by it, and can be deleted while it is still mentioned.
* What collect puts into a destination that does not exist is deleted again together with it, unless another
  node asked for it or somebody refers to the destination by then (`linda/src/linda/server.py:289-311`,
  `TupleSpaceServer.Server.Collect`).
* The two branches of the cycle collector that report a count lower than the number of references found cannot
  be reached while counts are exact.
* `TupleSpace._out` calls the matcher with its arguments swapped (`linda/src/linda/tuplespace.py:104`, `:135`).
  For templates of actual values the two orders agree. A waiter whose template has a type in it is never
  woken by a tuple put later, although the tuple matches (`TupleMatching.SwappedMatcherAgrees`,
  `TupleSpaceRuns.TypedTemplateStaysParked`).
* `read_tuple` compares the message with `inp_tuple`, which is never dispatched to it, so an `rdp` is parked as a
  request that may not be unblocked (`linda/src/linda/server.py:229`).
* The deadlock test never ends when a cycle of references can be reached and nothing active or missing can
  (`Deadlock.AnswersExactly`), as for two spaces that refer to each other while all threads are blocked
  (`Deadlock.TwoSpacesNeverAnswer`). It fails at a process that has left or a space that is gone, unless
  something active is nearer (`Deadlock.NearestDecides`).
* Removing a reference runs that test before the garbage collection (`linda/src/linda/tuplespace.py:307-310`,
  `:352-355`). When the last way from a space to a root goes while other spaces refer to it, these are on a cycle
  through it, and the test goes on for ever: the removal never reaches the collection, and the search for cycles
  there never has one to collect (`ReferenceRemoval.UnheldGoesOnExactly`,
  `ReferenceRemoval.NoCycleIsCollected`). On departure the process is no longer registered when its references are
  removed (`linda/src/linda/server.py:533-540`), so that the test fails where another space that it refers to
  still leads to it (`ReferenceRemoval.DepartureFails`, `ReferenceRemoval.LeavingTwoSpacesFails`); and inside the
  destructor of a space it fails at a space that is mentioned once more
  (`ReferenceRemoval.DeletedOwnerFails`). What is proved of the removals themselves is for tests that answer.
* The prime sieve prints the primes exactly if there is at least one slave and the master was told of at least
  as many slaves as there are: a surplus slave can take the token meant for the first stage
  (`PrimeSieveTokens.WorksExactlyWithEnoughTokens`).
* The results on stable marriage and the prime sieve are about an ideal tuplespace, in which a request with a type
  in its template sees every tuple that matches. On this server such a request, once parked, is never woken by a
  put (`TupleSpaceRuns.TypedTemplateStaysParked`): the women (`linda/examples/marriage.py:96`), the master, the
  slaves and the stages of the sieve wait with templates like that. The philosophers do not.
* Let-expressions are not ordered: two of them compare as equal when they agree in only one of their three
  parts (`SyntaxTreeOrder.LetsCompareEqual`). The second test for a missing tail in parameter and argument
  lists repeats the first, without effect on the result.
* `flattenProductType` appends its loop variable `t` for components that are neither products nor named
  (`linda/src/linda/match.py:163`). `ConvertValue.FlattensToLeaves` says for exactly which products the result
  is right all the same, and `ConvertValue.FlattensIfNamedFirst` for which the variable is set. A pair of
  built-in types is an error, and after a named type a built-in one is taken for that type again
  (`ConvertValue.BasicPairIsUnbound`, `ConvertValue.SecondBasicIsWrong`).
* A type spec with something blank, or code with a blank argument list, is not read back from XML as it was
  written; `SyntaxTreeXml.TypeRoundTrip` and `SyntaxTreeXml.CodeRoundTrip` give the exact conditions, and
  `SyntaxTreeXml.BlankPartIsLost` and `SyntaxTreeXml.BlankArgumentsAreLost` examples.
* Guids can repeat if the clock goes back (`Guid.ClockGoingBackRepeats`); while it does not, they never do.

## Model

| member | source | states |
|---|---|---|
| CyclicGarbage.ReleasesWhatItWalks | minimal/src/values.c:729-967 | destroying any kind of object releases, among the objects it releases, exactly those that the collector walks, with multiplicity, although in another order |
| CyclicGarbage.WalksEveryField | minimal/src/values.c:729-774 | the collector walks an object once for every field, element, binding or branch of another in which it stands |
| CyclicGarbage.ReleasesTheMissing | minimal/src/values.c:904-967 | a destructor releases something missing once for every missing field that it does not test, and a name only for a pointer type |
| CyclicGarbage.ReleasesOnlyObjects | minimal/src/syntax_tree.c:898-1015 | the destructor releases nothing but objects exactly if the object is no pointer type and nothing is missing that is released without a test |
| CyclicGarbage.ReleasesExactlyWhatItWalks | minimal/src/values.c:904-967 | what is released is what is walked, and nothing besides, exactly under that condition |
| CyclicGarbage.PointerTreeReleasesItsName | minimal/src/syntax_tree.c:999-1001 | the tree of a pointer type walks nothing and releases the string that it holds |
| CyclicGarbage.CyclicGarbageList.Add | minimal/src/cyclic_garbage.c:35-84 | one more reference from the current object: a known target gets one more hit, a new one is appended with one hit, and the current object points to it |
| CyclicGarbage.CyclicGarbageList.Walk | minimal/src/cyclic_garbage.c:123-132 | the list ends up holding exactly what the root reaches, each object once, with as many hits as references were found |
| CyclicGarbage.CyclicGarbageList.PointsIntoClique | minimal/src/cyclic_garbage.c:151-152 | true exactly if the object refers to a member of the clique |
| CyclicGarbage.CyclicGarbageList.AddOneToClique | minimal/src/cyclic_garbage.c:145-173 | one pass: either the clique grows by an object that leads into it, or it is entered from outside, or no object outside it refers to it any more |
| CyclicGarbage.CyclicGarbageList.GrowClique | minimal/src/cyclic_garbage.c:134-173 | with exact counts the fixpoint ends; it succeeds exactly if no reference enters the root's strongly connected component from outside, and the clique is then that component |
| CyclicGarbage.MemberReachesRoot | minimal/src/cyclic_garbage.c:151-154 | an object added to the clique reaches the root and is reached from it |
| CyclicGarbage.HitsOfExact | minimal/src/cyclic_garbage.c:134-160 | a count exceeds the hits by exactly the references from outside the list, so it is never below them |
| CyclicGarbage.SaturatedIsEnclosed | minimal/src/cyclic_garbage.c:145-173 | when the pass changes nothing and nothing entered, the clique is the root's component and is not entered from outside |
| RefCount.EnclosedNotHeld | minimal/src/cyclic_garbage.c:175-197 | no member of a component that is not entered is held from outside the heap, so freeing it is safe |
| RefCount.NotEnclosedKeepsAll | minimal/src/cyclic_garbage.c:134-160 | if the component is entered, its root is still held and nothing has to go |
| RefCount.OwedIsOutgoing | minimal/src/cyclic_garbage.c:183-189 | what the members of the clique release while they are destroyed is what the clique refers to outside itself |
| RefCount.CollectionSettles | minimal/src/cyclic_garbage.c:175-197 | marking, destroying and freeing an enclosed clique leaves exact counts, loses nothing that is still held, and has destroyed only what can be destroyed |
| RefCount.LastReferenceSettles | minimal/src/refcount.c:51-61 | destroying an object whose last reference went does the same |
| RefCount.SharedReferenceSettles | minimal/src/refcount.c:51-61 | so does giving up one of several references |
| RefCount.FreesExactlyTheUnheld | minimal/src/refcount.c:51-61 | where everything was held and the release succeeded, freed is exactly what is no longer held, and everything left is held |
| RefCount.SuccessIsExact | minimal/src/refcount.c:51-90 | where everything was held, a release that succeeded had nothing unheld before it that releases something that is no object, and freed exactly the unheld objects |
| RefCount.PointerSpecIsDoomed | minimal/src/syntax_tree.c:422-430 | a type spec with a pointer type in it: counts are exact and everything is held, but releasing it cannot succeed |
| RefCount.Heap.NewReference | minimal/src/refcount.c:28-33 | a new object has one reference, its creator's; counts stay exact |
| RefCount.Heap.AddReference | minimal/src/refcount.c:35-37 | one more holder outside the heap, one more in the count |
| RefCount.Heap.DelReference | minimal/src/refcount.c:51-61 | one holder fewer. Where everything was held it succeeds exactly if everything that becomes unheld can be destroyed, and frees exactly that; counts are then exact again after all nested releases and collections, nothing held is freed, and objects under destruction are left alone. It fails only on a release of something that is no object |
| RefCount.Heap.PerformCyclicCollection | minimal/src/cyclic_garbage.c:99-198 | frees the root's component if no reference enters it, with everything that is then unheld; otherwise changes nothing; fails only if something unheld releases something that is no object |
| RefCount.Heap.DestroyClique | minimal/src/cyclic_garbage.c:175-197 | marks, destroys and frees the chosen objects; counts are exact again and none of them is left; fails only if something unheld releases something that is no object |
| RefCount.Heap.DelObject | minimal/src/refcount.c:63-90 | releases what the object refers to, each reference once, skipping what is being destroyed itself; it stops at the first release of something that is no object, which happens only if the object or something unheld has such a release |
| RefCount.Heap.SetType | minimal/src/values.c:502-509 | the type object is replaced, the old one released; counts stay exact, nothing still held is lost, also if both are the same; fails only if what becomes unheld cannot be destroyed |
| ValueCopy.Copier.CopyInternal | minimal/src/values.c:787-902 | copies a component once, whatever cycles lead back to it: what was finished stays, what is under construction is untouched, and every count is the number of references from copies plus those under way |
| ValueCopy.Copier.Allocate | minimal/src/values.c:801-820 | a value met first gets a new object without components, entered in the memo before its components are copied; its type object, and for a function or type its layer, parameters, code, spec and names, are counted once more |
| ValueCopy.Copier.CopyValues | minimal/src/values.c:865-873 | the components of a tuple copied in order |
| ValueCopy.Copier.Lookup | minimal/src/values.c:793-799 | finds the copy recorded in the memo, if there is one |
| ValueCopy.Copier.Copy | minimal/src/values.c:777-785 | copying ends; exactly the values reachable through tuples and pointers are copied, each to an object of its own with components mapped position by position. Every count grows by the copied values of which the object is the type object, by the copied functions and types of which it is a part, with multiplicity, and by the components of copies that it is, and the count of the result by one more; nothing else changes |
| ValueCopy.CopyCountsWrittenOut | minimal/src/values.c:801-893 | the growth of every count, written out kind by kind: type objects of copied values, parts of copied functions and types, components of copies, and the result |
| ValueCopy.CopiedExactlyReachable | minimal/src/values.c:787-902 | what was copied is exactly what the root reaches |
| ValueCopy.CopyMirrors | minimal/src/values.c:787-902 | a copy refers to another exactly if the originals do, so sharing and cycles are the same |
| ValueCopy.CopyIsDisjoint | minimal/src/values.c:787-902 | through tuples and pointers the result reaches exactly the new objects and nothing that was there before |
| ValueCopy.CopyKeepsCountsExact | minimal/src/values.c:787-902 | if all counts were exact before, they are afterwards, with the result as one more reference held from outside |
| TypeList.Collector.AddType | minimal/src/type_list.c:25-48 | adds a type not in the list together with all that its type object depends on, and answers whether it was new |
| TypeList.Collector.AddNames | minimal/src/type_list.c:63-128 | adds the types a tree names, itself or below a pointer, and everything they depend on; built-in and unknown names are skipped; it ends on mutually recursive types |
| TypeList.Collector.GetTypeList | minimal/src/type_list.c:50-61 | the list holds, each once, exactly the types that can be reached from the type: the type itself, the type object of every listed type, and every type in the layer whose name, unless built in, occurs in an identifier or a pointer anywhere in the spec of a listed type; and no list closed in this way is smaller |
| TypeList.NamedOccurs | minimal/src/type_list.c:63-128 | a type is collected from a tree exactly if its name stands, not built in, in an identifier or pointer at some path through type specs, brackets, function types, products and sums |
| TypeList.DependenciesAre | minimal/src/type_list.c:25-128 | a type depends directly on its type object and on the types whose names occur in its spec, and on nothing else |
| TypeList.CollectedExactly | minimal/src/type_list.c:50-61 | a list closed under dependencies of which every member is depended on is the least closed one |
| SyntaxTreeOrder.TreesAreGeneral | minimal/src/syntax_tree.c:698-896 | on let-free trees the comparison is lexicographic in kind, text, number, number of children and children |
| SyntaxTreeOrder.TotalOrder | minimal/src/syntax_tree.c:698-896 | on let-free trees signs are antisymmetric, the comparison is transitive, and zero means the same tree up to type ids and cached function types |
| SyntaxTreeOrder.GeneralChained | minimal/src/syntax_tree.c:698-896 | the results for a, b and b, c determine the sign for a, c, strictly if either is strict |
| SyntaxTreeOrder.GeneralZero | minimal/src/syntax_tree.c:698-896 | zero exactly for trees equal up to type ids and cached types |
| SyntaxTreeOrder.StringsDecide | minimal/src/syntax_tree.c:716-717 | a string is less than another exactly if, after what they have in common, it ends or has the smaller character |
| SyntaxTreeOrder.TreesDecide | minimal/src/syntax_tree.c:698-896 | a let-free tree is less than another exactly if the first of kind, text, number and number of children in which they differ is less, or else it is less at the first child in which they differ; a missing child is less than any other |
| SyntaxTreeOrder.PartsInOrder | minimal/src/syntax_tree.c:768-819 | parameters count before the body, the function before its arguments, an argument before those after it; a later part only where the earlier are the same |
| SyntaxTreeOrder.OperandsInOrder | minimal/src/syntax_tree.c:820-893 | the same for the operands of an operator, for expression and index, and for the three parts of an if |
| SyntaxTreeOrder.LetsCompareEqual | minimal/src/syntax_tree.c:796-805 | two let-expressions compare as equal exactly if they agree in the variable or the expression or the code |
| SyntaxTreeOrder.DifferentLetsCompareEqual | minimal/src/syntax_tree.c:796-805 | two different let-expressions that compare as equal |
| SyntaxTreeXml.SerialiseTypeSpec | minimal/src/serialise.c:378-476 | writes the nodes that the specification function of type specs gives |
| SyntaxTreeXml.SerialiseParameterList | minimal/src/serialise.c:478-489 | writes one node per parameter, in order |
| SyntaxTreeXml.XmlToSyntaxTree | minimal/src/parsexml.c:49-339 | reads the tree that the specification function of the reader gives, with the reader's walks over siblings as loops; what that is for each element is said by the round trips and the rows on children below |
| SyntaxTreeXml.ReadFirstAndLast | minimal/src/parsexml.c:220-230 | of the children's trees, the first that is there and the last of those after it |
| SyntaxTreeXml.ReadFirstTwo | minimal/src/parsexml.c:108-121 | argument and result of a function type: the first two trees that are there |
| SyntaxTreeXml.ParameterListRoundTrip | minimal/src/parsexml.c:182-202 | a written parameter list is read back with the same names in order, without type ids |
| SyntaxTreeXml.TypeRoundTrip | minimal/src/serialise.c:378-476 | a type spec written and read back is the same up to brackets and type-spec names, with the known type ids, exactly if nothing needed is blank, missing or no part of a type |
| SyntaxTreeXml.BlankPartIsLost | minimal/src/serialise.c:378-476 | a product that ends in a blank is read back without it |
| SyntaxTreeXml.SolidRoundTrip | minimal/src/parsexml.c:80-134 | a type without blanks is written as one node that is read as that type |
| SyntaxTreeXml.SolidComesBack | minimal/src/serialise.c:378-476 | with no type ids to add, a type without blanks comes back exactly as it was |
| SyntaxTreeXml.IdentifierComesBack | minimal/src/serialise.c:393-418 | an identifier comes back with its own type id, or with the one known for its name, or without |
| SyntaxTreeXml.NamedTypeRoundTrip | minimal/src/parsexml.c:147-176 | a type element with a name around a written type is read as the type spec of that name with that type in it; a type_spec element as the type alone |
| SyntaxTreeXml.SurplusChildren | minimal/src/parsexml.c:108-316 | of more children than needed, an operator, an index and a call take the first and the last, a let the first two and the last, a function type the first two, code the first, a type and a type spec the last |
| SyntaxTreeXml.TupleTakesSize | minimal/src/parsexml.c:317-334 | a tuple element is read as the product of as many of its children, in order, as its size says, or of all if there are fewer |
| SyntaxTreeXml.WrittenIsSolid | minimal/src/parsexml.c:80-134 | whatever type was written, what is read has no blanks |
| SyntaxTreeXml.CodeRoundTrip | minimal/src/serialise.c:491-585 | code of identifiers, integers, strings, operators, indexing, let and calls is read back as it was, up to type ids, exactly if it has no blanks and argument lists only where they belong |
| SyntaxTreeXml.BlankArgumentsAreLost | minimal/src/serialise.c:491-585 | a call with a blank argument list is read back without one |
| SyntaxTreeXml.ProperRoundTrip | minimal/src/parsexml.c:203-316 | code without blanks is written as one node that is read as that code |
| SyntaxTreeXml.WrittenIsProper | minimal/src/parsexml.c:203-316 | whatever code was written, what is read has no blanks and well-placed argument lists |
| SyntaxTreeXml.AppendIsProper | minimal/src/syntax_tree.c:368-385 | joining two argument lists gives an argument list again |
| SyntaxTreeXml.ChainAppend | minimal/src/syntax_tree.c:401-420 | adding a parameter puts its name at the end of the chain |
| SyntaxTreeXml.FunctionRoundTrip | minimal/src/serialise.c:587-607 | a function with its name, parameters and code is read back; its type is skipped by the reader |
| SyntaxTreeXml.FunctionHasItsType | minimal/src/serialise.c:587-607 | the first child of a written function, read by itself, is the type spec with its name and type |
| SyntaxTreeXml.DocumentRoundTrip | minimal/src/parsexml.c:50-64 | a document of written functions and named types is read as exactly their trees, in order, as many as there are |
| SyntaxTreeXml.TextIsIgnored | minimal/src/parsexml.c:55-61 | text between elements, as in an indented document, does not change what is read |
| Decimal.RoundTrip | minimal/src/parsexml.c:135-140 | the integer read from a written attribute is the one written |
| ConvertValue.Convert | linda/src/linda/convertvalue.py:21-44 | running a program has the effect of the instruction-by-instruction specification, reading past the registers being an error |
| ConvertValue.ExplodeValues | linda/src/linda/convertvalue.py:46-53 | nested tuples are flattened from left to right |
| ConvertValue.Leaves.Construct | linda/src/linda/convertvalue.py:55-72 | builds a value from the front of the list and removes what it used |
| ConvertValue.ExplodesToLeaves | linda/src/linda/convertvalue.py:46-53 | exploding a value whose leaves are no tuples gives its leaves in order |
| ConvertValue.BuildsShape | linda/src/linda/convertvalue.py:55-72 | construct succeeds exactly if there are enough leaves; it uses as many as the type has and gives a value of that type with them at its leaves |
| ConvertValue.RoundsConvert | linda/src/linda/match.py:105-107 | the EVAL and ROTATE rounds convert each leaf once, with its own program, and keep the order |
| ConvertValue.ProgramConverts | linda/src/linda/match.py:104-110 | the program for two products with equally many leaves makes of a value of the first a value of the second with the converted leaves in order and the second type's id; it fails exactly if a leaf program fails |
| ConvertValue.LeavesDetermine | linda/src/linda/convertvalue.py:55-72 | a value of a type is determined, up to type ids, by its leaves |
| ConvertValue.ThereAndBack | linda/src/linda/match.py:92-110 | with leaf programs that only set type ids, converting there and back gives a value with the same payloads in the same places |
| ConvertValue.FlattenProductType | linda/src/linda/match.py:146-164 | follows the function with its loop variable, unset until a named component is met |
| ConvertValue.FlattensToLeaves | linda/src/linda/match.py:146-164 | the flattened list is the list of leaf types exactly if every component that is neither a product nor named repeats the definition met last |
| ConvertValue.FlattensIfNamedFirst | linda/src/linda/match.py:146-164 | the loop variable is set whenever it is used exactly if at every level a named component comes first |
| ConvertValue.BasicPairIsUnbound | linda/src/linda/match.py:151-163 | for a product of two built-in types the loop variable is used before it is set |
| ConvertValue.SecondBasicIsWrong | linda/src/linda/match.py:155-163 | a named type followed by another built-in type: the definition of the first is taken for both |
| ConvertValue.CompareProducts | linda/src/linda/match.py:92-110 | answers what the specification of the comparison gives on the flattened lists: an error if one of them cannot be formed, a program exactly if they are equally long and pairwise convertible |
| ConvertValue.ComparesLeafTypes | linda/src/linda/match.py:92-103 | there is an answer exactly if in both products, at every level, a named component comes before the first that is neither named nor a product; where both flatten to their leaf types a program is emitted exactly if these are equally many and pairwise convertible |
| ConvertValue.EmittedConverts | linda/src/linda/match.py:104-110 | an emitted program, run on a value of the first type, gives a value of the second that holds the leaves converted one by one, each with the program for the types found in its place; these are the types of the leaves themselves exactly if both products flatten to their leaf types |
| TupleMatching.MatchesActual | linda/src/linda/tuplecontainer.py:40-59 | matched against actual values only, a tuple matches exactly if it is equal |
| TupleMatching.MatchesEverywhere | linda/src/linda/tuplecontainer.py:40-59 | a tuple matches exactly if it has the places of the template, at every depth, and at each place holds the same value, or a value of the type that stands in the template there, or a type where the template has the type of types |
| TupleMatching.TypesAreKept | linda/src/linda/tuplecontainer.py:47-59 | what matches has, at every typed place of the template, a value of that type, and at every other place the value of the template |
| TupleMatching.SwappedMatcherAgrees | linda/src/linda/tuplespace.py:101-106 | with the arguments swapped the matcher agrees on a tuple exactly if the template is the tuple or does not match it; always for templates of actual values |
| TupleMatching.SwappedMatcherDiffers | linda/src/linda/tuplespace.py:101-106 | (int,) and (5,): matched one way and not the other |
| TupleMatching.MatchTuples | linda/src/linda/tuplecontainer.py:117-126 | yields, by increasing positions, exactly the stored tuples that fit the template at every place |
| TupleMatching.MatchOneTuple | linda/src/linda/tuplecontainer.py:114-115 | the first stored tuple that fits the template at every place; fails exactly if none does |
| TupleMatching.Delete | linda/src/linda/tuplecontainer.py:131-142 | removes the first tuple that equals the one given |
| TupleMatching.WithoutFirstAt | linda/src/linda/tuplecontainer.py:131-142 | what is deleted is the tuple at the first position where an equal one is stored, and nothing moves but up |
| TupleMatching.MatchingSelects | linda/src/linda/tuplecontainer.py:117-126 | matching and other tuples are those at the positions that fit and at the positions that do not, both in order |
| TupleMatching.MatchingSplits | linda/src/linda/tuplecontainer.py:117-126 | matching and other tuples together are the stored ones, with multiplicity |
| TupleMatching.DeletingMatches | linda/src/linda/tuplespace.py:243-254 | deleting the matching tuples one by one, each time the first equal one, leaves exactly the others in their order |
| TupleSpaceSteps.WokenMeaning | linda/src/linda/tuplespace.py:99-131 | in whatever order the waiters are looked at: woken are only waiters whose template is the tuple, all of them if none takes it, and otherwise some readers and exactly one taker, the last |
| TupleSpaceSteps.OutDoes | linda/src/linda/tuplespace.py:92-154 | a tuple put goes to one taker, or else to a node that asked for exactly it, or else is stored; readers whose template it is are woken |
| TupleSpaceSteps.FirstRequestIs | linda/src/linda/tuplespace.py:133-150 | the request that gets a tuple is an element of the list, the first whose pattern is the tuple; there is none exactly if no pattern is |
| TupleSpaceSteps.GetMeans | linda/src/linda/tuplespace.py:160-214 | a read or take answers the first stored tuple that fits the template at every place, and removes exactly that one for a take; the thread is parked exactly if none fits |
| TupleSpaceSteps.OutKeepsInv | linda/src/linda/tuplespace.py:92-154 | putting a tuple keeps conservation, who waits where, the records of blocked threads, single replies and that no template of actual values is overlooked |
| TupleSpaceSteps.GetKeepsInv | linda/src/linda/server.py:227-266 | so does reading or taking, whether a tuple is found, the thread is parked, or the space is missing |
| TupleSpaceRuns.ReturnKeepsInv | linda/src/linda/tuplespace.py:113-121 | so does the reply to a woken thread |
| TupleSpaceRuns.UnblockKeepsInv | linda/src/linda/server.py:585-592 | so does unblocking |
| TupleSpaceRuns.CollectKeepsInv | linda/src/linda/tuplespace.py:243-256 | so does collecting |
| TupleSpaceRuns.LeaveKeepsInv | linda/src/linda/server.py:528-533 | a process that leaves while its threads have open requests keeps all of this but the agreement of the record for those threads |
| TupleSpaceRuns.DropKeepsInv | linda/src/linda/tscontainer.py:157-171 | so does deleting any space, whoever is parked in it |
| TupleSpaceRuns.ReturnFinds | linda/src/linda/tuplespace.py:113-119 | the thread a reply is on its way to waits for it, is parked nowhere and gets no other; looking it up succeeds and the reply is sent exactly if its process has not left while it waited, and else the reply is lost |
| TupleSpaceRuns.UnblockFinds | linda/src/linda/server.py:585-591 | a thread taken from a blocked list waits in that space only; the assertion that it is recorded as blocked holds exactly if its process has not left while it waited |
| TupleSpaceRuns.TuplesAreConserved | linda/src/linda/tuplespace.py:92-256 | in every run a tuple put is stored or left exactly once: to a taker, on its way to one, with a reply that was lost, to a node, by collect, or with its space |
| TupleSpaceRuns.BlockedMeansWaiting | linda/src/linda/server.py:227-266 | in every run a thread that waits is parked in one space or has one reply on its way and is not stranded; each other request of it got one reply, or lost it, or is stranded; a thread is recorded as blocked, on the space where it asked, exactly if it waits or is stranded and its process has not left since |
| TupleSpaceRuns.ForgottenExactly | linda/src/linda/server.py:528-531 | in every run the threads taken out of the record are exactly those whose process left while they were parked, had a reply on its way or were stranded |
| TupleSpaceRuns.StrandedExactly | linda/src/linda/tscontainer.py:157-171 | in every run the stranded threads are exactly those parked in a space when it was deleted, or that asked in a missing one |
| TupleSpaceRuns.RecordsAgreeExactly | linda/src/linda/server.py:508-533 | the record of blocked threads agrees with who waits in all states of a run exactly if in it no process leaves while one of its threads is parked or has a reply on its way, no space is deleted in which a thread is parked, and no thread asks in a missing space |
| TupleSpaceRuns.NothingIsLost | linda/src/linda/tuplespace.py:113-119 | in such a run no reply is lost, and every request has its one reply or its thread is recorded as blocked |
| TupleSpaceRuns.LeavingLosesTheTuple | linda/src/linda/server.py:508-531 | a run in which a process leaves while its thread is parked: the thread is parked and not recorded, unblocking it fails, and a tuple put is handed to it and lost |
| TupleSpaceRuns.DroppingStrandsTheTaker | linda/src/linda/tscontainer.py:157-171 | a run without departures: the last reference to a space goes while a thread is parked there; it stays recorded without waiting anywhere, and so does a thread that asks there afterwards |
| TupleSpaceRuns.LeavingTakesTheSpace | linda/src/linda/server.py:528-540 | a run in which a process leaves while parked in a space that goes with it: its request is neither answered nor lost, and nothing waits for it |
| TupleSpaceRuns.NoActualTemplateOverlooked | linda/src/linda/tuplespace.py:99-152 | in every run no template of actual values waits in a space where a tuple that it matches is stored |
| TupleSpaceRuns.TypedTemplateStaysParked | linda/src/linda/tuplespace.py:101-111 | a waiter whose template has a type in it is not woken by any tuple put |
| TupleSpaceDelivery.OneDelivers | linda/src/linda/tuplespace.py:92-154 | putting one tuple: a thread parked to take exactly it gets it, if there is one; else the first node that asked for exactly it; else it is stored; nothing else of the state changes |
| TupleSpaceDelivery.OutDelivers | linda/src/linda/tuplespace.py:92-154 | putting one more after others: as many of each tuple as threads were parked to take it go to these, the rest to the first node that asked for it or into the space, in order; woken threads are answered with their templates, all others stay parked |
| TupleSpaceDelivery.HowManyNotTaken | linda/src/linda/tuplespace.py:99-131 | of each tuple put, exactly as many go to threads as were parked to take it, unless there are fewer tuples |
| TupleSpaceDelivery.HowManySent | linda/src/linda/tuplespace.py:133-150 | what no thread took goes to a node exactly if one asked for it, and then to the first that did |
| TupleSpaceDelivery.AnswersSay | linda/src/linda/tuplespace.py:113-131 | a woken thread is answered with the template it waited with, as a take exactly if it asked to take |
| TupleSpaceServer.Server.CheckBlocked | linda/src/linda/tuplespace.py:99-131 | wakes the waiters that the specification gives, with the template as answer, and says whether one takes the tuple |
| TupleSpaceServer.Server.CheckRequests | linda/src/linda/tuplespace.py:133-150 | the first request whose pattern matches the tuple, or none if no pattern does |
| TupleSpaceServer.Server.Out | linda/src/linda/tuplespace.py:92-154 | performs the step of putting a tuple, for the order in which the dictionary gives the waiters |
| TupleSpaceServer.Server.ReadTuple | linda/src/linda/server.py:227-247 | performs the step of reading; the thread is never parked as one that may be unblocked; it fails exactly if the space is missing, with the thread recorded |
| TupleSpaceServer.Server.TakeTuple | linda/src/linda/server.py:249-266 | performs the step of taking; parked as unblockable exactly for inp; it fails exactly if the space is missing, with the thread recorded |
| TupleSpaceServer.Server.ReturnTuple | linda/src/linda/tuplespace.py:113-119 | performs the reply to a woken thread; it fails exactly if the process of the thread left while it waited |
| TupleSpaceServer.Server.UnblockRandom | linda/src/linda/tuplespace.py:217-236 | unblocks one waiter that may be unblocked, and does nothing exactly if there is none; the assertion fails exactly if the process of the waiter left while it waited |
| TupleSpaceServer.Server.CollectFrom | linda/src/linda/tuplespace.py:243-256 | takes the matching tuples in order and leaves the others |
| TupleSpaceServer.Server.OutAll | linda/src/linda/server.py:298-302 | puts a list of tuples, one after the other: each goes to a parked taker, to the first node that asked for it or into the space, as many as there are; nothing else changes |
| TupleSpaceServer.Server.RegisterProcess | linda/src/linda/server.py:132-142 | a new process has no threads yet, and its count of thread ids starts at 0 |
| TupleSpaceServer.Server.RegisterThread | linda/src/linda/server.py:144-153 | gives the next thread id of a process; fails if the process never registered, and, after counting, if it has left |
| TupleSpaceServer.Server.RemoveThread | linda/src/linda/server.py:515-524 | a thread leaves, and its process with its last thread |
| TupleSpaceServer.Server.RemoveProcess | linda/src/linda/server.py:528-533 | takes the threads of a process, and no others, out of the record of blocked threads and leaves the blocked lists alone |
| TupleSpaceServer.Server.Collect | linda/src/linda/server.py:280-313 | takes every matching tuple out of the source and puts it into the destination as if put there one by one, and counts them; the source keeps the others and its waiters; a missing source gives 0 and changes nothing; a missing destination is created with the requests of other nodes for it, and deleted again with all that no node asked for unless it is referred to |
| TupleSpaceServer.CollectedGo | linda/src/linda/server.py:294-311 | how often each tuple collected goes where: to threads parked in the destination to take it, while there are any; the rest to a node if one asked for it, into the destination if that stays, and away with it if not |
| TupleSpaceServer.Server.Garbage | linda/src/linda/tscontainer.py:154-171 | deletes a space that is not referred to, with its tuples and its list of parked threads, unless it is the universal one |
| TupleSpaceContainer.TupleSpaces.DoGarbageCollection | linda/src/linda/tuplespace.py:359-379 | empties the references exactly if no process and not the universal tuplespace can be reached through them; it ends in spite of cycles |
| TupleSpaceContainer.TupleSpaces.Garbage | linda/src/linda/tscontainer.py:154-171 | deletes a space without references, with all that only it kept reachable; the ledger of references agrees afterwards |
| TupleSpaceContainer.TupleSpaces.Destroy | linda/src/linda/tuplespace.py:80-89 | where the deadlock tests answer: drops every reference the stored tuples held, and the cascade ends |
| TupleSpaceContainer.TupleSpaces.DeleteReference | linda/src/linda/tscontainer.py:108-118 | removes one reference; where the deadlock tests answer and nothing is owed, exactly the spaces that something still reaches remain; references of processes to these and ways to roots stay as they were; fails exactly if there is no such reference |
| TupleSpaceContainer.TupleSpaces.DeleteAllReferences | linda/src/linda/tscontainer.py:125-135 | the same for all references of a process to a space |
| TupleSpaceContainer.TupleSpaces.RemoveProcess | linda/src/linda/server.py:538-540 | where the deadlock tests answer: after a process left, exactly the spaces reachable from another process or the universal tuplespace remain, with their tuples, and none refers to it |
| TupleSpaceContainer.TupleSpaces.AddReference | linda/src/linda/tscontainer.py:94-100 | one more reference; the ledger agrees and every space is still reachable |
| TupleSpaceContainer.TupleSpaces.ChangeOwner | linda/src/linda/utils.py:63-72 | handing a tuple to a process deletes no space on the way; the process then holds one more reference to each space for every element of the tuple that refers to it, and other processes hold what they held |
| SpaceGraph.MentionsCount | linda/src/linda/utils.py:46-72 | a tuple mentions a space as often as references to it are elements of the tuple, and never the universal one |
| SpaceGraph.MentionsOfOne | linda/src/linda/tuplespace.py:80-89 | what a space mentions is what each of its stored tuples mentions, with multiplicity |
| TupleSpaceContainer.CollectsExactlyTheUnrooted | linda/src/linda/tuplespace.py:359-379 | if every space was reachable and nothing is owed afterwards, exactly the spaces that became unreachable are gone |
| TupleSpaceContainer.KeepsWithoutMeans | linda/src/linda/server.py:538-540 | when all references of a process are gone, what remains is what others reach |
| SpaceGraph.UnrootedKeeps | linda/src/linda/tscontainer.py:157-163 | deleting a space that is not reachable from a root leaves every way to a root as it was |
| SpaceGraph.AnchorsThroughRooted | linda/src/linda/tuplespace.py:359-379 | a space that still leads to a root need not be looked at again |
| SpaceGraph.NothingOwedAllRooted | linda/src/linda/tuplespace.py:80-89 | with no reference of a deleted space left over, every space leads to a root |
| Deadlock.AnswersAreRight | linda/src/linda/tuplespace.py:381-403 | an outcome is right: false only if the universal tuplespace or a running thread can be reached, an error only if a space or process that is not there can, true only if neither can, nor a cycle |
| Deadlock.AnswersExactly | linda/src/linda/tuplespace.py:381-403 | there is an outcome exactly if something active or missing can be reached or no cycle can; true exactly if none of these can; false, or an error, exactly if only something active, or only something missing, can |
| Deadlock.NearestDecides | linda/src/linda/tuplespace.py:386-401 | where something active and something missing can be reached, the nearer decides between false and an error |
| Deadlock.TwoSpacesNeverAnswer | linda/src/linda/tuplespace.py:386-393 | two spaces that refer to each other, one of them held by a process whose only thread is blocked: no number of rounds gives an answer |
| Deadlock.EndsWithoutCycles | linda/src/linda/tuplespace.py:384-393 | without cycles the walk ends within as many rounds as there are paths |
| Deadlock.FindsStop | linda/src/linda/tuplespace.py:384-401 | whatever cycles there are, something active or missing that can be reached is found |
| Deadlock.IsLocallyDeadlocked | linda/src/linda/tuplespace.py:381-403 | the loop as written has the outcome of the specification wherever it ends: true exactly if the space is not the universal one and nothing active or missing can be reached |
| ReferenceRemoval.UnheldGoesOnExactly | linda/src/linda/tuplespace.py:306-310 | when every space was held and the last way of one to a root goes, the removal reaches the garbage collection exactly if nothing refers to the space any more; otherwise the deadlock test before it never ends |
| ReferenceRemoval.NoCycleIsCollected | linda/src/linda/tuplespace.py:359-379 | whenever the garbage collection is reached from such a removal it changes nothing: it finds a root, or no references |
| ReferenceRemoval.GoesOnExactly | linda/src/linda/tuplespace.py:306-310 | while all processes are registered, a removal reaches the garbage collection exactly if somebody active is found or there is no cycle of owners, and never fails |
| ReferenceRemoval.DepartureFails | linda/src/linda/server.py:533-540 | after a process left, the removal of its references to a space fails, unless something active is found, exactly if the space still leads to the process; where both are found the nearer decides |
| ReferenceRemoval.LeavingTwoSpacesFails | linda/src/linda/server.py:533-540 | a process that refers to two spaces, of which one mentions the other: with the other looked at first the removal fails |
| ReferenceRemoval.DeletedOwnerFails | linda/src/linda/tuplespace.py:86-89 | inside the destructor of a space, dropping a reference fails while another reference of that space to the same one comes first |
| Marriage.RunInv | linda/examples/marriage.py:49-112 | what every step of the proposal protocol keeps, over all runs |
| Marriage.RunsAreFinite | linda/examples/marriage.py:58-65 | no run has more steps than a bound in the number of couples |
| Marriage.NoManExhaustsHisList | linda/examples/marriage.py:58-65 | no man is ever turned down by everyone |
| Marriage.QuiescentIsStable | linda/examples/marriage.py:49-112 | when nobody can move, the pairing is perfect and has no blocking pair |
| Marriage.ChoiceSpares | linda/examples/marriage.py:72-84 | a woman never refuses a man she is paired with in some stable matching |
| Marriage.NoManDoesBetter | linda/examples/marriage.py:58-65 | in every state of every run each man stands at a woman he likes at least as much as his wife in any stable matching |
| Marriage.ScheduleIndependent | linda/examples/marriage.py:49-112 | all runs that come to rest end in the same pairing |
| Marriage.SomethingCanHappen | linda/examples/marriage.py:63-65 | while anyone is left, someone can move or is unblocked |
| Marriage.FinishedRun | linda/examples/marriage.py:49-112 | a run that cannot go on has ended for everybody, in the stable matching that is best for the men |
| SieveNumbers.SiftedCandidates | linda/examples/case_studies/primesieve/prime_sieve.py:23-33 | sifting what a stage receives gives the next prime and then exactly what the stage of that prime is to receive |
| SieveNumbers.NextPrime | linda/examples/case_studies/primesieve/prime_sieve.py:26-30 | the first number a stage passes on is the next prime |
| PrimeSieveSteps.StepKeepsInv | linda/examples/case_studies/primesieve/prime_sieve.py:8-33 | what every step of master, slaves and stages keeps: each number sent and not yet taken is in the space once, under its position |
| PrimeSieveSteps.RunInv | linda/examples/case_studies/primesieve/master.py:8-24 | the same over all runs |
| PrimeSieveResult.OnlyPrimesAreAnnounced | linda/examples/case_studies/primesieve/prime_sieve.py:8-10 | every number announced in any run is a prime |
| PrimeSieveResult.StagesTakeInOrder | linda/examples/case_studies/primesieve/prime_sieve.py:18-33 | in every run the stage of a prime takes, in order, exactly the larger numbers that no smaller number divides |
| PrimeSieveResult.StuckTookAll | linda/examples/case_studies/primesieve/prime_sieve.py:18-22 | when nobody can move every stage has taken all that was meant for it |
| PrimeSieveResult.EndsWithThePrimes | linda/examples/case_studies/primesieve/master.py:20-24 | a run that cannot go on has printed every prime below the bound, once each, and nothing else |
| PrimeSieveRuns.RunsAreFinite | linda/examples/case_studies/primesieve/master.py:17-24 | no run is longer than a bound in the bound for numbers and the number of slaves |
| PrimeSieveTokens.OnlyTwoPrinted | linda/examples/case_studies/primesieve/slave.py:10-20 | with more slaves than tokens, a run that prints 2 and gets stuck |
| PrimeSieveTokens.WorksExactlyWithEnoughTokens | linda/examples/case_studies/primesieve/master.py:11-13 | all runs that end have printed the primes exactly if there is a slave and there are no more slaves than tokens |
| Philosophers.RunInv | linda/examples/philosophers.py:29-41 | what every step keeps, over all runs |
| Philosophers.NothingIsLost | linda/examples/philosophers.py:34-40 | in every run every chopstick and the ticket are in the space or in exactly one hand |
| Philosophers.NeighboursExclude | linda/examples/philosophers.py:34-38 | neighbours never eat at the same time |
| Philosophers.HolderCanMove | linda/examples/philosophers.py:34-40 | whoever has the chopstick that the ticket holder waits for can go on |
| Philosophers.NoDeadlock | linda/examples/philosophers.py:29-41 | in every state of every run with somebody still there, some step is possible, though the ticket is returned before eating |
| Philosophers.AloneGetsStuck | linda/examples/philosophers.py:35-36 | a single philosopher gets stuck, so two are needed |
| Guid.Generator.Generate | linda/src/linda/guid.py:111-147 | with a clock that does not go back every id returned is new, also when the counter wraps round and when the call waits for the next millisecond; its time is the first reading of the clock at which there are ids left |
| Guid.NextIsNew | linda/src/linda/guid.py:122-138 | time and counter of a call were not issued before |
| Guid.ReturnedAreDistinct | linda/src/linda/guid.py:111-147 | all ids one generator ever returned are different |
| Guid.FormatsDiffer | linda/src/linda/guid.py:129-145 | ids are equal exactly if time and counter are |
| Guid.ExtractsFields | linda/src/linda/guid.py:150-168 | time, counter and address are extracted as they were put in |
| Guid.ClockGoingBackRepeats | linda/src/linda/guid.py:132-138 | with a clock that goes back the same id can come again |

## Left out

* Sockets, message encoding, select loops, service discovery, the monitor, options and statistics; the Python,
  C++ and Guile bindings and the generated parsers. libxml is replaced by a document tree with symbols for
  element and attribute names.
* Traffic between servers: registering and asking partitions, what collect finds on other nodes, and moving
  tuples of a deleted space to another node. A request of another node is a list entry; what is forwarded to it is a sink.
* Threads and locks: every operation under a lock is one step. A reply sent by a thread of its own is a step of
  its own.
* Heap objects are entries of a map from handles, so the address arithmetic of the arrays, their growth and
  `free` are not modelled; a freed handle is one that is no longer in the map.
* Minimal_tupleSet and Minimal_setPtr (`minimal/src/values.c:423-439`, `:472-477`) release before they overwrite,
  so counts are not exact when the release starts; the collector is only modelled for exact counts.
* Syntax trees as objects of the heap are lists of branches, walked and released in the same order, of which
  some are released without a test; which kind of tree it is, and its strings, are left out there, but for
  pointer types.
* Copying of sums and syntax-tree values, which the source refuses after it has entered them in the memo
  (`minimal/src/values.c:895-898`), and the callback for copied tuplespace references.
* Reference counts of the types in a type list, and types from different layers.
* Serialisation of values, where booleans are not attached and pointer targets go to the root; if-expressions
  and tuples in code. Where a child the writer needs is missing, or an attribute or argument the reader needs,
  the source would fail; the model writes nothing, or reads an empty string or a missing child.
* The writer attaches a node before it fills it; the model builds the node first. The type id of a let-expression
  that was read, which the source leaves unset in memory, is taken as missing.
* Sum, pointer and function types in type comparison, its memo, and the wrapping of functions. Named types are
  taken with their definitions, so that they cannot be recursive. The memo of flattenProductType has no effect,
  because it is asked for an id that product definitions do not carry.
* SETTYPEID changes the value in place, so that leaves of the original may change their type id; programs run
  on values here.
* A nested tuple matched against an element that is not a tuple: the source asks for the length of that element,
  which is an error for numbers, after which the request stays recorded; the model says that it does not match.
  The typed matcher.
* copy_collect, and replies to out, collect and the other requests that do not wait.
* When a tuplespace is deleted is left open in the server model; the model of references says when.
* The return_tuple message, which nothing in the repository sends.
* Sockets that are closed between looking a thread up and sending to it, and references in a reply that cannot be
  moved because the space they mention is gone: the reply counts as sent.
* Parked readers, and the references carried by collect and copy_collect, in the ledger of references. There the
  source passes the space in place of its id (`linda/src/linda/server.py:301`).
* The check that a waiting request is really deadlocked before it is unblocked: unblocking may happen at any time
  in the server model.
* inp answers None only where nobody can move; in the three protocols that ends a run.
* Starting the processes of the protocols and handing out the tuplespace, except in the sieve, where handing it
  out matters; the philosophers start when everything is on the table.
* The address part of a guid is given; finding out the address, and the floating-point seconds of extract_time,
  are not modelled.
- PrimeSieveResult.EndsWithThePrimes: is stated for bounds of at least 3; for smaller ones the master still puts 2.
- RefCount.Heap.PerformCyclicCollection: takes counts that are exact but for the reference just given up, because the collector is only called after a decrement.
- TupleSpaceContainer.TupleSpaces.DeleteReference: says what happens if the deadlock test answers, for this reference and for those dropped in its wake; ReferenceRemoval says when the first test does.
- TupleSpaceContainer.TupleSpaces.DeleteAllReferences: says what happens if the deadlock tests answer, as above.
- TupleSpaceContainer.TupleSpaces.RemoveProcess: says what happens if no deadlock test on the way fails or goes on for ever; ReferenceRemoval says when the first one does.
- TupleSpaceContainer.TupleSpaces.Destroy: says what happens if the deadlock tests answer; ReferenceRemoval.DeletedOwnerFails is a case in which one does not.
