# dotNetRDF: AVG, DISTINCT, SHACL-DS combinations, result collections, ASK rewriting and the explicit representation

This project models several small components of dotNetRDF in Dafny and proves properties of them:

- **`AverageAggregate`**: the AVG aggregate accumulator of the pull evaluator (section 18.5 of the W3C SPARQL 1.1 Query Language).
  - It is a class with the original's fields: the error flag, the count, the decimal, float and double running sums, the numeric-type ceiling (`maxtype`), the type of the last value (`numtype`) and the DISTINCT seen-set.
  - `Start`, `Accept` and `Value` act on those fields as the original does.
  - The ghost fields `window` and `accepted` record what was accepted. The invariant `Valid` ties the sums and the ceiling to them.
- **`DistinctEvaluation`**: DISTINCT over a solution stream. This is order-preserving duplicate removal with a seen-set, applied to what the inner evaluation returns for the same arguments.
- **`VocabularyDs`**: the SHACL-DS vocabulary. Every term is the base IRI `http://www.w3.org/ns/shacl-dataset#` followed by its local name.
- **`GraphCombination`**: the SHACL-DS combination machinery.
  - Expanding the argument keywords `shds:all` and `shds:named` into the dataset's graph names.
  - `Parse`, which dispatches a declaration node to an atom, or, and, or minus combination.
- **`MinusCombination`**: evaluating a minus combination. It asserts the first argument's triples that the last argument's graph lacks, one at a time, into a fresh graph.
- **`DatasetWrapperGraph`**: the dataset wrapper used during SHACL-DS validation.
  - It backs the default graph up as `shds:default`.
  - It installs a graph as the default graph.
  - It restores the default graph from the backup.
  - The dataset is a class holding a map from graph names to triple sets, updated in place.
- **`ResultCollection`**: the results of a validation report, kept as `sh:result` triples in the report graph.
  - `Add`, `Remove`, `Contains`, `Count`, `Clear` and `CopyTo`.
  - `AddFull`, which copies a result's fields and then the declaration of its graph combination with a queue of triples.
- **`Ask`**: the SHACL-SPARQL ASK constraint.
  - `BindValue` rewrites a copy of the query by moving unplaced assignments to the front of its pattern list as BIND patterns, then binding `value` first.
  - `ValidateInternal` collects the value nodes whose ASK query answers false.
- **`ExplicitRepresentation`**: the Hydra Core "ExplicitRepresentation" node formatter used by Triple Pattern Fragments clients.

Shared modules:

- `Rdf`: terms, triples, graph names, and a `Graph` class whose triple set is updated in place.
- `Wrappers`: `Option` and `Result`.

Most exceptions the original throws become `Result` errors:

- LINQ `Single()` on zero or several triples;
- an unknown combination predicate;
- a non-list argument;
- `First()` on an empty argument list;
- a failure while evaluating a minus combination's first or last argument, passed on unchanged;
- a blank node given to the formatter.

The argument exceptions of `CopyTo` (a negative index, or too little room in the array) become a `false` result instead.

## Model

All source paths are relative to the repository root.

| member | source | states |
|---|---|---|
| Rdf.Single | Libraries/dotNetRdf.Shacl/GraphCombination.cs:102 | LINQ `Single` on a triple set: a result exactly when the set has one element, and then the set is that element alone |
| VocabularyDs.ShaclDsNode | Libraries/dotNetRdf.Shacl/VocabularyDs.cs:108-110 | a SHACL-DS term is an IRI whose local name after the base IRI is the given name |
| VocabularyDs.LocalName | Libraries/dotNetRdf.Shacl/VocabularyDs.cs:39 | a term with a local name is the base IRI `http://www.w3.org/ns/shacl-dataset#` followed by that name |
| VocabularyDs.ShaclDsNodeInjective | Libraries/dotNetRdf.Shacl/VocabularyDs.cs:108-110 | two SHACL-DS terms are equal if and only if their local names are |
| VocabularyDs.TermsAreBasePlusLocalName | Libraries/dotNetRdf.Shacl/VocabularyDs.cs:46-106 | each of the thirteen terms is the base IRI followed by its local name (`all`, `named`, `default`, `or`, `and`, `minus`, ...) |
| VocabularyDs.LocalNamesDistinct | Libraries/dotNetRdf.Shacl/VocabularyDs.cs:46-106 | the thirteen local names differ pairwise |
| VocabularyDs.TermsDistinct | Libraries/dotNetRdf.Shacl/VocabularyDs.cs:46-106 | the thirteen terms differ pairwise, so no two dispatch cases over them overlap |
| AverageAggregate.MaxType | Libraries/dotNetRdf.Query.PullEvaluation/Aggregation/AsyncAverageAggregate.cs:85-88 | the ceiling update is an upper bound of both types and one of them |
| AverageAggregate.MaxOfIsHighest | Libraries/dotNetRdf.Query.PullEvaluation/Aggregation/AsyncAverageAggregate.cs:85-88 | the ceiling after a run of accepts bounds every accepted type and is one of them; it is NaN exactly for the empty run |
| AverageAggregate.AcceptKeepsSums | Libraries/dotNetRdf.Query.PullEvaluation/Aggregation/AsyncAverageAggregate.cs:85-106 | raising the ceiling and adding the value to the sums the ceiling allows keeps the invariant: the double sum is the sum of the window, and the float and decimal sums are too while the ceiling is at most their precision |
| AverageAggregate.AsyncAverageAggregate.constructor | Libraries/dotNetRdf.Query.PullEvaluation/Aggregation/AsyncAverageAggregate.cs:12-29 | a new aggregate has no error, count 0, zero sums, NaN ceiling and last type, an empty seen-set, and satisfies the invariant |
| AverageAggregate.AsyncAverageAggregate.Value | Libraries/dotNetRdf.Query.PullEvaluation/Aggregation/AsyncAverageAggregate.cs:32-51 | absent in error; the long 0 for an empty group; and, when the last accepted type is the ceiling, the mean of the values since Start in the ceiling's representation |
| AverageAggregate.AsyncAverageAggregate.CorrectedValue | Libraries/dotNetRdf.Query.PullEvaluation/Aggregation/AsyncAverageAggregate.cs:37-49 | selecting the sum by the ceiling gives, for every non-empty error-free group, the mean of the values since Start in the ceiling's representation |
| AverageAggregate.AsyncAverageAggregate.Start | Libraries/dotNetRdf.Query.PullEvaluation/Aggregation/AsyncAverageAggregate.cs:53-59 | resets the count and the three sums only; the error flag, ceiling, last type and seen-set stay; the invariant is kept |
| AverageAggregate.AsyncAverageAggregate.Accept | Libraries/dotNetRdf.Query.PullEvaluation/Aggregation/AsyncAverageAggregate.cs:61-110 | in error: false and no change. A null value: error and false. A DISTINCT duplicate: true and no change. NaN: error and false, uncounted. Otherwise: true, count plus one, ceiling raised, value added to the sums the new ceiling allows. The ceiling never decreases and the invariant is kept |
| AverageAggregate.AsyncAverageAggregate.AcceptNew | Libraries/dotNetRdf.Query.PullEvaluation/Aggregation/AsyncAverageAggregate.cs:77-109 | a first-seen value sets the last type; NaN enters the error state uncounted, any other type is counted and summed |
| AverageAggregate.AsyncAverageAggregate.AcceptNumeric | Libraries/dotNetRdf.Query.PullEvaluation/Aggregation/AsyncAverageAggregate.cs:84-109 | a numeric value raises the ceiling to its type, is added to the sums the ceiling allows and is counted, keeping the invariant |
| AverageAggregate.AsyncAverageAggregate.AddToSums | Libraries/dotNetRdf.Query.PullEvaluation/Aggregation/AsyncAverageAggregate.cs:90-106 | ceiling Integer or Decimal: all three sums grow; Float: the float and double sums; Double: only the double sum; NaN: none |
| AverageAggregate.AverageOfIntegerAndDecimal | Libraries/dotNetRdf.Query.PullEvaluation/Aggregation/AsyncAverageAggregate.cs:85-106 | AVG over the integer 1 and the decimal 2.5 is the decimal 1.75 |
| AverageAggregate.AverageAfterDoubleThenInteger | Libraries/dotNetRdf.Query.PullEvaluation/Aggregation/AsyncAverageAggregate.cs:38-49 | AVG over the double 1.0e0 and then the integer 2 is the decimal 0 as written, against the double 1.5 by the ceiling |
| DistinctEvaluation.Evaluate | Libraries/dotNetRdf.Query.Pull/Algebra/AsyncDistinctEvaluation.cs:7-11 | for the same context, input, active graph and cancellation token: no solution twice, and exactly the solutions the inner evaluation returns |
| DistinctEvaluation.Distinct | Libraries/dotNetRdf.Query.Pull/Algebra/AsyncDistinctEvaluation.cs:10 | LINQ `Distinct`: no solution occurs twice in the output, and a solution is in the output if and only if it is in the input |
| DistinctEvaluation.DistinctFromElements | Libraries/dotNetRdf.Query.Pull/Algebra/AsyncDistinctEvaluation.cs:10 | with a seen-set, the output holds exactly the input's solutions that were not seen |
| DistinctEvaluation.DistinctFromNoDuplicates | Libraries/dotNetRdf.Query.Pull/Algebra/AsyncDistinctEvaluation.cs:10 | with any seen-set, no solution is emitted twice |
| DistinctEvaluation.DistinctFromOfUnique | Libraries/dotNetRdf.Query.Pull/Algebra/AsyncDistinctEvaluation.cs:10 | a duplicate-free input disjoint from the seen-set passes unchanged |
| DistinctEvaluation.DistinctOfUnique | Libraries/dotNetRdf.Query.Pull/Algebra/AsyncDistinctEvaluation.cs:10 | a duplicate-free stream is returned unchanged |
| DistinctEvaluation.DistinctIdempotent | Libraries/dotNetRdf.Query.Pull/Algebra/AsyncDistinctEvaluation.cs:10 | applying DISTINCT twice equals applying it once |
| DistinctEvaluation.DistinctFromOrder | Libraries/dotNetRdf.Query.Pull/Algebra/AsyncDistinctEvaluation.cs:10 | with a seen-set, of two emitted solutions the earlier one first occurs earlier in the input |
| DistinctEvaluation.DistinctOrder | Libraries/dotNetRdf.Query.Pull/Algebra/AsyncDistinctEvaluation.cs:10 | the output lists solutions in the order of their first occurrence in the input |
| GraphCombination.NamedGraphNames | Libraries/dotNetRdf.Shacl/GraphCombination.cs:66 | the non-null graph names: a term is listed if and only if it names a named graph of the dataset; the null default name never appears |
| GraphCombination.NamedGraphNamesConcat | Libraries/dotNetRdf.Shacl/GraphCombination.cs:66 | the names keep the order in which the dataset enumerates its graphs: the names of a concatenation are the concatenation of the names, which decides what `First()` and `Last()` pick after a `shds:named` or `shds:all` argument |
| GraphCombination.Expand | Libraries/dotNetRdf.Shacl/GraphCombination.cs:66-91 | `shds:all` stands for exactly the named graphs of the dataset and `shds:default`; `shds:named` for exactly the named graphs; any other argument for itself alone |
| GraphCombination.ExpandKeywords | Libraries/dotNetRdf.Shacl/GraphCombination.cs:69-86 | the two keywords differ, and `shds:all` stands for what `shds:named` stands for followed by `shds:default` |
| GraphCombination.NormalizedArgumentsList | Libraries/dotNetRdf.Shacl/GraphCombination.cs:62-93 | every argument that is not a keyword is kept, and only arguments, named graphs of the dataset and `shds:default` come out |
| GraphCombination.Arguments | Libraries/dotNetRdf.Shacl/GraphCombination.cs:58-61 | the arguments of a combination are its list items normalised: non-keyword items are kept, and only items, named graphs and `shds:default` come out |
| GraphCombination.NormalizedConcat | Libraries/dotNetRdf.Shacl/GraphCombination.cs:62-93 | the normalised list of a concatenation is the concatenation of the normalised lists, so expansions follow argument order |
| GraphCombination.NormalizedMembers | Libraries/dotNetRdf.Shacl/GraphCombination.cs:62-93 | a term is in the normalised list if and only if it is a non-keyword argument, a named graph when some argument is a keyword, or `shds:default` when some argument is `shds:all` |
| GraphCombination.Parse | Libraries/dotNetRdf.Shacl/GraphCombination.cs:95-117 | a parsed combination keeps its node; it is an atom if and only if the node is an IRI; a non-IRI node parses only when it is the subject of exactly one triple |
| GraphCombination.ParseNonIri | Libraries/dotNetRdf.Shacl/GraphCombination.cs:102-116 | for a non-IRI node: or, and, or minus if and only if its only triple has that predicate; NotSingle if and only if it is not the subject of exactly one triple; unknown type if and only if its one triple has another predicate |
| MinusCombination.MinusTriples | Libraries/dotNetRdf.Shacl/GraphCombinationElements/NotCombination.cs:48 | exactly the shapes-graph triples with the node as subject and `shds:minus` as predicate |
| MinusCombination.TargetCombined | Libraries/dotNetRdf.Shacl/GraphCombinationElements/NotCombination.cs:46-69 | the loop yields a fresh graph holding exactly the specified difference, and fails with exactly the specified error, including a failure of the first or last argument's evaluation |
| MinusCombination.Subtract | Libraries/dotNetRdf.Shacl/GraphCombinationElements/NotCombination.cs:55-66 | asserting, one by one, the positive graph's triples that the negative graph lacks gives a fresh graph holding exactly the difference |
| MinusCombination.DifferenceContents | Libraries/dotNetRdf.Shacl/GraphCombinationElements/NotCombination.cs:56-66 | a successful minus has both arguments parsed and evaluated, and is the first argument's graph less the last's: a subset of the first, disjoint from the last, and holding every such triple |
| MinusCombination.DifferenceFailures | Libraries/dotNetRdf.Shacl/GraphCombinationElements/NotCombination.cs:56-57 | a failing evaluation of the first argument is the minus's failure, whatever the last argument is; a failing evaluation of the last argument is the minus's failure when the first argument evaluates |
| MinusCombination.DifferenceIgnoresMiddle | Libraries/dotNetRdf.Shacl/GraphCombinationElements/NotCombination.cs:56-57 | argument lists with the same first and last argument give the same result |
| MinusCombination.DifferenceOfOne | Libraries/dotNetRdf.Shacl/GraphCombinationElements/NotCombination.cs:56-66 | with a single argument that evaluates, the minus is empty |
| MinusCombination.NestedFailurePropagates | Libraries/dotNetRdf.Shacl/GraphCombinationElements/NotCombination.cs:50-57 | a minus whose first argument is a minus over a non-list fails with NotListRoot, as the nested minus does |
| MinusCombination.TargetCombinedErrors | Libraries/dotNetRdf.Shacl/GraphCombinationElements/NotCombination.cs:48-53 | without exactly one `shds:minus` triple the result is NotSingleMinus; with one whose object is not a list root it is NotListRoot; otherwise it is the minus over the normalised items of that list |
| DatasetWrapperGraph.AddDefaultAsNamed | Libraries/dotNetRdf.Shacl/DatasetWrapperGraph.cs:36-48 | afterwards `shds:default` exists; an existing one is left untouched, otherwise it holds the default graph's triples; no other graph changes |
| DatasetWrapperGraph.SetDefault | Libraries/dotNetRdf.Shacl/DatasetWrapperGraph.cs:50-56 | the default graph holds exactly the given triples and no other graph changes |
| DatasetWrapperGraph.ResetDefault | Libraries/dotNetRdf.Shacl/DatasetWrapperGraph.cs:58-65 | the default graph holds the triples of `shds:default` and no other graph changes |
| DatasetWrapperGraph.ConstructThenReset | Libraries/dotNetRdf.Shacl/DatasetWrapperGraph.cs:17-65 | without a prior `shds:default`, backup then install then reset restores the original default graph; the only other change is the new backup |
| DatasetWrapperGraph.ConstructThenResetWithBackup | Libraries/dotNetRdf.Shacl/DatasetWrapperGraph.cs:36-65 | with a prior `shds:default`, reset installs that graph, not the default graph found at construction |
| DatasetWrapperGraph.InMemoryDataset.AddGraph | Libraries/dotNetRdf.Shacl/DatasetWrapperGraph.cs:46 | adding a graph merges its triples into the graph of that name, creating it if needed |
| DatasetWrapperGraph.InMemoryDataset.RemoveGraph | Libraries/dotNetRdf.Shacl/DatasetWrapperGraph.cs:52 | removing a graph drops its entry and nothing else |
| DatasetWrapperGraph.CopyGraph | Libraries/dotNetRdf.Shacl/DatasetWrapperGraph.cs:41-45 | asserting the triples one by one into a new graph gives a fresh graph with exactly those triples |
| DatasetWrapperGraph.DatasetWrapperGraph.constructor | Libraries/dotNetRdf.Shacl/DatasetWrapperGraph.cs:17-21 | the wrapper is empty and the dataset has gone through the backup step |
| DatasetWrapperGraph.DatasetWrapperGraph.FromGraphName | Libraries/dotNetRdf.Shacl/DatasetWrapperGraph.cs:23-28 | the wrapper holds the named graph's triples (read after the backup) and the dataset's default graph is replaced by them |
| DatasetWrapperGraph.DatasetWrapperGraph.FromGraph | Libraries/dotNetRdf.Shacl/DatasetWrapperGraph.cs:30-34 | the wrapper holds the given graph's triples and the dataset's default graph is replaced by them after the backup |
| DatasetWrapperGraph.DatasetWrapperGraph.AddDefaultAsNamedGraph | Libraries/dotNetRdf.Shacl/DatasetWrapperGraph.cs:36-48 | the dataset becomes AddDefaultAsNamed of its old value |
| DatasetWrapperGraph.DatasetWrapperGraph.SetAsDefaultGraph | Libraries/dotNetRdf.Shacl/DatasetWrapperGraph.cs:50-56 | remove-then-add of a copy leaves the dataset as SetDefault of its old value with the wrapper's triples |
| DatasetWrapperGraph.DatasetWrapperGraph.ResetDefaultGraph | Libraries/dotNetRdf.Shacl/DatasetWrapperGraph.cs:58-65 | the dataset becomes ResetDefault of its old value |
| ResultCollection.FieldPredicatesDistinct | Libraries/dotNetRdf.Shacl/Validation/ResultCollection.cs:91-100 | the ten field predicates differ pairwise |
| ResultCollection.FieldTriplesUpToMembers | Libraries/dotNetRdf.Shacl/Validation/ResultCollection.cs:91-100 | after the first n setters, a triple is on the node if and only if it pairs one of those fields' predicates with that field's present value |
| ResultCollection.FieldTriplesReadBack | Libraries/dotNetRdf.Shacl/Validation/ResultCollection.cs:91-100 | after the field copy, the triple with the i-th field predicate and object v is on the new node if and only if the i-th field holds v |
| ResultCollection.FieldTriplesShape | Libraries/dotNetRdf.Shacl/Validation/ResultCollection.cs:91-100 | every copied field triple has the new node as subject and a field predicate |
| ResultCollection.Successors | Libraries/dotNetRdf.Shacl/Validation/ResultCollection.cs:116-125 | one traversal step adds exactly the triples whose subject is the object of a visited triple that is a blank node or has an `rdf:rest` triple |
| ResultCollection.SuccessorsAdd | Libraries/dotNetRdf.Shacl/Validation/ResultCollection.cs:118-125 | dequeuing one more triple adds its object's triples exactly when that object is followed |
| ResultCollection.ClosureClosed | Libraries/dotNetRdf.Shacl/Validation/ResultCollection.cs:112-126 | the declaration closure holds the start triples, stays within the shapes graph and is closed under a step |
| ResultCollection.ClosureLeast | Libraries/dotNetRdf.Shacl/Validation/ResultCollection.cs:112-126 | the closure lies within every step-closed set that holds the start triples |
| ResultCollection.DeclarationProperties | Libraries/dotNetRdf.Shacl/Validation/ResultCollection.cs:105-126 | the declaration holds every triple of the combination node and, for every followed object, all of its triples; it is the least such set |
| ResultCollection.CopyStep | Libraries/dotNetRdf.Shacl/Validation/ResultCollection.cs:112-126 | one dequeue, assert and enqueue keeps the traversal invariant: start covered, nothing beyond the declaration, every successor copied or queued |
| ResultCollection.UnendingStep | Libraries/dotNetRdf.Shacl/Validation/ResultCollection.cs:112-126 | when the queue holds a triple of a set whose triples lead into each other through followed objects, it still holds one after a dequeue step |
| ResultCollection.AnnotatedListUnending | Libraries/dotNetRdf.Shacl/Validation/ResultCollection.cs:116-125 | in the declaration `_:c shds:minus _:l . _:l rdf:first ex:g ; rdf:rest rdf:nil ; ex:note _:z . _:z ex:back _:l` the combination node's triple leads to `_:l ex:note _:z`, and that triple and `_:z ex:back _:l` lead into each other forever |
| ResultCollection.Enumerate | Libraries/dotNetRdf.Shacl/Validation/ResultCollection.cs:107-111 | enumerating a triple set yields a queue holding exactly its triples |
| ResultCollection.ResultCollection.constructor | Libraries/dotNetRdf.Shacl/Validation/ResultCollection.cs:46-49 | the collection belongs to the given report node and report graph |
| ResultCollection.ResultCollection.Results | Libraries/dotNetRdf.Shacl/Validation/ResultCollection.cs:67-75 | an item is a result if and only if `(report, sh:result, item)` is in the report graph |
| ResultCollection.ResultCollection.Contains | Libraries/dotNetRdf.Shacl/Validation/ResultCollection.cs:141-144 | an item is contained if and only if `(report, sh:result, item)` is in the report graph |
| ResultCollection.ResultCollection.Count | Libraries/dotNetRdf.Shacl/Validation/ResultCollection.cs:51-57 | the count is the number of distinct `sh:result` objects of the report node, so it is zero if and only if the collection contains nothing |
| ResultCollection.ResultCollection.Add | Libraries/dotNetRdf.Shacl/Validation/ResultCollection.cs:77-80 | asserts exactly the triple `(report, sh:result, item)`, after which the item is contained |
| ResultCollection.ResultCollection.Remove | Libraries/dotNetRdf.Shacl/Validation/ResultCollection.cs:161-166 | returns whether the item was contained before, retracts exactly its result triple, and afterwards it is not contained |
| ResultCollection.ResultCollection.Clear | Libraries/dotNetRdf.Shacl/Validation/ResultCollection.cs:133-139 | afterwards there are no results, and only the former result triples were retracted |
| ResultCollection.ResultCollection.CopyTo | Libraries/dotNetRdf.Shacl/Validation/ResultCollection.cs:146-149 | fails, changing nothing, when the index is negative or the results do not fit; otherwise the slot range holds exactly the results and the rest of the array is unchanged |
| ResultCollection.ResultCollection.SetField | Libraries/dotNetRdf.Shacl/Validation/ResultCollection.cs:91-100 | setting a field asserts its triple when the value is present and nothing otherwise |
| ResultCollection.ResultCollection.CopyFields | Libraries/dotNetRdf.Shacl/Validation/ResultCollection.cs:89-100 | the ten setters together add exactly the field triples of the new node |
| ResultCollection.ResultCollection.CopyTriple | Libraries/dotNetRdf.Shacl/Validation/ResultCollection.cs:114-125 | one dequeued triple is asserted into the report graph, and the triples to queue after it are those of its object when that object is followed |
| ResultCollection.ResultCollection.CopyDeclaration | Libraries/dotNetRdf.Shacl/Validation/ResultCollection.cs:103-128 | the queue loop adds only declaration triples, and all of them when the queue runs empty; it stops short only after spending all its fuel; and when the node's own triples lead into a cycle it never completes, for any fuel |
| ResultCollection.ResultCollection.CopyDeclarationVisited | Libraries/dotNetRdf.Shacl/Validation/ResultCollection.cs:103-128 | with a visited set the copy ends on every declaration, cycles included, and adds exactly the declaration |
| ResultCollection.ResultCollection.CopyHead | Libraries/dotNetRdf.Shacl/Validation/ResultCollection.cs:114-125 | copying a dequeued triple not yet copied keeps the traversal invariant and leaves fewer declaration triples to copy |
| ResultCollection.ResultCollection.AddFull | Libraries/dotNetRdf.Shacl/Validation/ResultCollection.cs:87-131 | adds the field triples and the result triple; without a combination nothing else; with one, part of its declaration, and all of it when the copy completes, which it never does when the declaration has a cycle reachable from the node |
| Ask.ReversedBindsAt | Libraries/dotNetRdf.Shacl/Constraints/Ask.cs:93-96 | the k-th placed BIND is the assignment k-th from the end |
| Ask.ReversedBindsLength | Libraries/dotNetRdf.Shacl/Constraints/Ask.cs:93-96 | one BIND is placed per assignment |
| Ask.ReversedBindsSnoc | Libraries/dotNetRdf.Shacl/Constraints/Ask.cs:93-96 | placing one more assignment puts its BIND in front of the others |
| Ask.BoundQueryShape | Libraries/dotNetRdf.Shacl/Constraints/Ask.cs:89-98 | the rewritten query has no unplaced assignments; `BIND(value)` comes first, then the former assignments as BINDs in reverse order, then the original patterns unchanged; it grows by assignments plus one; the root pattern's filters and child patterns, and the rest of the query, are unchanged |
| Ask.BindValue | Libraries/dotNetRdf.Shacl/Constraints/Ask.cs:87-101 | the Insert(0) loop on the copy yields exactly the bound query described by BoundQueryShape |
| Ask.RejectedMembers | Libraries/dotNetRdf.Shacl/Constraints/Ask.cs:60-82 | a node is reported if and only if it is a value node whose bound query answers false |
| Ask.RejectedConcat | Libraries/dotNetRdf.Shacl/Constraints/Ask.cs:60-82 | rejection works node by node, so reports keep input order |
| Ask.ValidateInternal | Libraries/dotNetRdf.Shacl/Constraints/Ask.cs:58-85 | the loop collects exactly the rejected value nodes, in input order |
| ExplicitRepresentation.Format | Libraries/dotNetRdf.LDF/Hydra/ExplicitRepresentationFormatter.cs:37-42 | fails with "Only IRI and literal nodes are supported." exactly for blank nodes; an IRI is itself; a literal without datatype or language tag is its quoted lexical form |
| ExplicitRepresentation.FormatInSegment | Libraries/dotNetRdf.LDF/Hydra/ExplicitRepresentationFormatter.cs:45 | the position in the triple does not change the representation |
| ExplicitRepresentation.FormatLiteral | Libraries/dotNetRdf.LDF/Hydra/ExplicitRepresentationFormatter.cs:47-63 | the lexical form between double quotes, then `^^` and the datatype right after the closing quote when there is one, then `@` and the language tag at the very end when the tag is non-empty, and nothing else |
| ExplicitRepresentation.ParseFormat | Libraries/dotNetRdf.LDF/Hydra/ExplicitRepresentationFormatter.cs:47-63 | round trip: IRIs not starting with a quote, and literals without quotes in the lexical form or `@` in the datatype, are read back from their representation |
| ExplicitRepresentation.NoEscapingCollision | Libraries/dotNetRdf.LDF/Hydra/ExplicitRepresentationFormatter.cs:50 | because nothing is escaped, two different literals can share one representation |

## Left out

- The AVG sums are exact reals. IEEE single and double rounding, and decimal overflow, are not modelled.
- AverageAggregate.AsyncAverageAggregate.Accept: the count is an unbounded integer. Overflow of the original's 64-bit `long` count is not modelled.
- The AVG value expression, its evaluation context and the `AsDecimal`, `AsFloat` and `AsDouble` conversions are computed by the caller. `Accept` receives the evaluated value, or None for null, with its conversions.
- The numeric-type enumeration is defined outside these files. It is modelled as the numbers 0 to 4 in promotion order.
- `AsyncAverageAggregate.End` does nothing and is not modelled. Neither is the `VariableName` property.
- AverageAggregate.AsyncAverageAggregate.Value: when the last accepted type is not the ceiling, the contract does not give the value as a mean. The Findings row shows what it is then.
- DISTINCT's asynchronous stream and cancellation are a finite sequence. The inner evaluation is a function parameter.
- `GetListItems` and `IsListRoot` are not part of this model. They are function parameters of the minus combination.
- MinusCombination.TargetCombined: evaluating the first and last arguments is the function parameter `combined`, which may fail. The `TargetCombined` of the atom, or and and combinations is not part of this model. A nested minus is evaluated by whatever `combined` does; `NestedFailurePropagates` shows a `combined` that evaluates it by the minus evaluation itself.
- The dataset's graph names are a sequence parameter in enumeration order.
- Union-default-graph behaviour and `Uri.AbsoluteUri` normalisation of IRIs are not modelled. IRIs are plain strings.
- DatasetWrapperGraph.DatasetWrapperGraph.FromGraphName: requires the named graph to exist. The original's indexer fails otherwise.
- The graph objects the wrapper builds are not kept; only their triples are. The `GraphName` property, never set in the original, is left out.
- ResultCollection.ResultCollection.AddFull: the original keeps no visited set, so it loops forever on a cycle of blank nodes or list cells (see Findings). The model dequeues at most `fuel` triples and returns whether the queue ran empty. Only then is the whole declaration promised.
- ResultCollection.ResultCollection.CopyDeclaration: it is proved that a reachable cycle prevents completion. The converse is not proved: that enough fuel completes the copy of a declaration without such a cycle.
- `Result.Create` and the `Result` getters and setters are not part of this model:
  - a result's fields are a record of optional terms;
  - the new result node is a parameter;
  - a result path is copied as one triple;
  - whatever `Create` itself asserts is not modelled.
- `IsReadOnly` is the constant false and is not modelled.
- `GetEnumerator` yields `Results`, which is a set here. Enumeration order is not modelled.
- The shapes graph is a value, so its aliasing with the report graph is not modelled.
- `rdf:rest` is taken to be the standard RDF namespace IRI. Prefix resolution is not modelled.
- ASK query execution, whether on the dataset or on the data graph, is the oracle parameter `ask`.
- `ReportValueNodes` is not part of this model. `ValidateInternal` returns the list of invalid value nodes it would report.
- The `Query` property and `DefaultMessage` are not modelled.
- `SparqlQuery.Copy` is implicit, because queries are values. Query parts other than the root graph pattern are carried as one opaque field.
- Datatype IRIs of literals are plain strings; the formatter's `AbsoluteUri` normalisation of them is not modelled.
- ExplicitRepresentation.Format: terms are IRIs, blank nodes and literals only. The original also refuses variable, graph-literal and triple nodes. Those kinds are not modelled, so "fails exactly for blank nodes" holds only among the three.
- The root graph pattern's filters, child graph patterns and other members are one opaque field, kept unchanged by the rewrite.
- `ShapesDataset` and the other supporting files are not part of this model.

## Findings

| source | as written | input that shows it | evidently intended | confidence | as-written member | corrected member |
|---|---|---|---|---|---|---|
| Libraries/dotNetRdf.Query.PullEvaluation/Aggregation/AsyncAverageAggregate.cs:38 | `Value` selects the running sum by `_numtype`, the type of the last accepted value. Once the ceiling is Double only the double sum grows, so a later integer makes it read the stale decimal sum | AVG over the double `1.0e0` followed by the integer `2`: the result is the decimal 0 | select the sum by `_maxtype`, giving the double 1.5 | not executed | AverageAggregate.AverageAfterDoubleThenInteger | AverageAggregate.AsyncAverageAggregate.CorrectedValue |
| Libraries/dotNetRdf.Shacl/Validation/ResultCollection.cs:112-126 | the declaration copy queues the triples of every followed object without remembering which triples it has copied, so on a cycle through blank nodes or list cells the queue never empties | a minus over a one-cell list whose cell carries an annotation pointing back to it, `_:c shds:minus _:l . _:l rdf:first ex:g ; rdf:rest rdf:nil ; ex:note _:z . _:z ex:back _:l` (`AnnotatedListUnending`): evaluating the combination reads only the `shds:minus`, `rdf:first` and `rdf:rest` triples, and with its single argument gives the empty graph (`DifferenceOfOne`); then `AddFull` does not return | skip triples already copied, which ends on every declaration and copies exactly the declaration | not executed; needs a cycle through blank nodes in the combination's declaration | ResultCollection.ResultCollection.CopyDeclaration | ResultCollection.ResultCollection.CopyDeclarationVisited |
