# Verified model of the API firewall's routing, schema validation and connection pool

The project models the parts of the API firewall that decide what happens to a request: the tree of path
templates that routes it, the visitors that validate its values against OpenAPI schemas, the loader that resolves
schema references, the check a schema itself has to pass, the pool of proxy clients, the matching of server URLs,
and the decoding of styled parameters. Each model follows the Go code branch by branch and is proved against a
specification that does not mention how the code works.

* **Routing** (`GoStrings`, `Templates`, `Matching`, `RouteTable`, `PathPattern`, `Router`). A table maps chains of
  suffix tokens to names and values; `Matching.Run` says what it means for a chain to consume a path. The class
  `PathPattern.Node` is the tree as the code builds and searches it in place: suffix lists that are sorted after
  each insertion, and one capture slice shared by all branches of the search, with Go's `append`. It is proved to
  refine the table, and to return the first derivation in priority order; what that order prefers is stated suffix by
  suffix. The router adds operations in whatever order the maps yield.
* **Schema validation** (`Schemas`, `Keywords`, `SchemaErrors`, `Violations`, `SchemaVisitor`, `Reports`, `SchemaEmpty`,
  `VerdictAgreement`, `FastVerdict`, `FastKeywords`, `FastAgreement`, `FastVisitor`, `FastEmpty`). Schemas are nodes of a
  possibly cyclic graph. `SchemaVerdict.Valid` is the verdict the Schema Object section of the OpenAPI Specification 3.0
  asks for, as this code reads it; `Keywords` says of it what each keyword asks. The visitor is proved against it in all
  modes of error handling, with its overwritten and restored `failfast` flag and the locations in its errors. Where
  errors are collected it is proved to report all of `Violations.ViolationsOf`, and elsewhere nothing else; `Reports`
  says what a violation means and that none is missing. The verdict of the second visitor, for values of the fast
  parser, depends on the mode. It is proved to be the declared verdict in another graph, in which those closed objects
  are open that the visitor comes to with its flag off. The IsEmpty short cut of both visitors is proved harmless under
  an exact condition on the schemas it applies to.
* **Schema self-validation** (`SelfValidate`, `SelfKeywords`): the depth-first check with an explicit stack, for graphs with cycles
  and unresolved references, against a fixed-point reading of its verdict that has no stack.
* **Reference resolution** (`RefWalk`, `RefResolver`): cells are objects that are filled in one by one while the graph
  is walked and re-entered. Next to the objects every method returns the tree of its own calls, and that tree is proved
  to be a run of the same algorithm on values. On values the project proves when there is no such run at all:
  references may point to references, but if some of those wait for each other, the document is never resolved.
* **The client pool** (`ClientPool`, `PoolCalls`): the lock, the channel field and the channel as atomic steps of any
  number of callers, and what each call has done, in every run, when it returns.
* **Server URLs, styled parameters, reference tokens** (`ServerUrl`, `StyledParams`, `RefTokens`, over `Splitting`):
  parsers with their inverses.

Where the code does not do what one would expect of it for all inputs, the project says exactly when it does, and gives
an input for which it does not:

* the short cut changes no verdict exactly if every empty schema is harmless (`ShortcutPreservesIffHarmless`), which the
  schemas of `ShortcutChangesNot`, `ShortcutChangesOneOf` and `ShortcutChangesDiscriminator` are not;
* the fast visitor lets undeclared fields of a closed object through exactly if it comes to that schema with the flag
  off and errors are not collected. The options only set the flag to begin with; allOf clears it and the other
  combinators set it (`FastVisitorOpensClosedObjects`, `CombinatorsOverwriteTheFlag`; `FastIsOpened` says what this
  makes of a whole graph, and `FastAgrees` for which values it makes no difference);
* a defect of a schema that passes its own check is at or behind a oneOf (`DefectsHideBehindOneOf`,
  `OneOfHidesDefects`);
* a document without faults, none of whose aliases (references that are referred to) is a cell inside a schema, can be
  resolved exactly if its aliases can be ranked (`PlanOrKnot`, `AliasOfAliasResolves`,
  `RecursionThroughAnAliasDiverges`); for an alias inside a schema the order of the cells may decide
  (`AliasInSchemaResolves`, `AliasInSchemaDiverges`);
* the text of a path template is routed to a node exactly if some template matches it, which a template with text
  behind a variable does not do itself (`NoRouteIff`, `OwnTextRunsIffLive`, `DeadPathHasNoRoute`);
* Get, which is documented to fail once the pool has been closed, fails exactly if its nil check came after the field
  was cleared, or if it read the channel and found it closed and drained (`GetFailsIff`). The two other ways through
  are `ClosedPoolMayStillLend` and `ClosedChannelMayStillLend`.

Where the code and its comments disagree the model follows the code.

Parameters stand for what the models do not define: regular expressions, string formats, `strconv.Atoi`,
`ParseFloat` and `ParseBool`, the text that list items are compared by, the registered string formats, the lookup
of local references, and the answers of `IsEmpty`.

## Model

| member | source | states |
|---|---|---|
| `Templates.TokenTrichotomy` | internal/platform/routers/legacy/pathpattern/node.go:117-145 | the order of suffixes is total on (kind, pattern), which is also what makes two suffixes equal |
| `Templates.TokenTransitive` | internal/platform/routers/legacy/pathpattern/node.go:136-145 | the order of suffixes is transitive |
| `Templates.ParseNamesEveryVariable` | internal/platform/routers/legacy/pathpattern/node.go:208-234 | an accepted template has one name for each variable or wildcard token |
| `Templates.ParseIsCanonical` | internal/platform/routers/legacy/pathpattern/node.go:182-236 | the tokens of an accepted template: slashes alone, no two constants side by side, names trimmed and without "}" |
| `Templates.ParseInvertsRender` | internal/platform/routers/legacy/pathpattern/node.go:182-236 | every canonical list of tokens and names is what parsing its written form gives back |
| `Templates.ParseBraceFree` | internal/platform/routers/legacy/pathpattern/node.go:193-208 | a template without braces is accepted, has no variables, and its constants spell it |
| `Templates.StarMakesWildcard` | internal/platform/routers/legacy/pathpattern/node.go:207-233 | the braces of an accepted template are variables in the order of their names, and wildcards exactly where the name ends in "*" and wildcards are supported |
| `Templates.NamesAreTrimmed` | internal/platform/routers/legacy/pathpattern/node.go:212-217 | no name begins or ends with a space or holds a closing brace |
| `Templates.AcceptedIff` | internal/platform/routers/legacy/pathpattern/node.go:193-216 | a template is accepted exactly if a closing brace follows every opening one |
| `Matching.CapturesRebuildPath` | internal/platform/routers/legacy/pathpattern/node.go:273-328 | putting the captured values in place of the variables gives the path back, followed only by slashes |
| `Matching.InstanceRuns` | internal/platform/routers/legacy/pathpattern/node.go:279-302 | every instance of a template whose variables fill segments and whose wildcard is last is matched, and the values put in come back |
| `Matching.LiteralComesFirst` | internal/platform/routers/legacy/pathpattern/node.go:136-145 | no chain that matches a literal path is tried before the literal chain |
| `RouteTable.AddSound` | internal/platform/routers/legacy/pathpattern/node.go:164-190 | adding any template, good or bad, keeps the table prefix-closed, with as many names as variables at valued nodes |
| `RouteTable.FirstIsUnique` | internal/platform/routers/legacy/pathpattern/node.go:279-324 | at most one derivation comes before all others |
| `RouteTable.CapturesFitNames` | internal/platform/routers/legacy/router.go:152-161 | a match returns exactly as many values as the node has names, so the index into the names is in range |
| `RouteTable.InstanceDerives` | internal/platform/routers/legacy/pathpattern/node.go:265-328 | the slash-trimmed instance of a stored template leads to a valued node |
| `RouteTable.LiteralWins` | internal/platform/routers/legacy/pathpattern/node.go:273-291 | a brace-free template with a value is the first derivation of its own path, without captures, whatever else is stored |
| `RouteTable.FirstAtDifference` | internal/platform/routers/legacy/pathpattern/node.go:94-145 | where the derivation that is returned parts from another one, it has a constant against a variable or wildcard, a variable against a wildcard, or the longer of two constants |
| `RouteTable.FirstIsNoExtension` | internal/platform/routers/legacy/pathpattern/node.go:273-277 | it does not go on from a node at which another derivation ends |
| `RouteTable.VariableBeforeWildcard` | internal/platform/routers/legacy/pathpattern/node.go:94-102 | a wildcard is never chosen where a variable leads on to a derivation |
| `RouteTable.AddAllGivesRoutes` | internal/platform/routers/legacy/pathpattern/node.go:164-263 | adding good templates, colliding or not, in any order gives exactly their prefixes, with values exactly where templates end and each of a template that ends there |
| `RouteTable.TableIffRoutesAndConsistent` | internal/platform/routers/legacy/router.go:67-80 | such a table holds what every template stores if and only if colliding templates store the same |
| `RouteTable.AddAllGivesTable` | internal/platform/routers/legacy/pathpattern/node.go:164-263 | adding templates that do not disagree gives exactly their prefixes, names and values, whatever the order |
| `RouteTable.TableIsUnique` | internal/platform/routers/legacy/pathpattern/node.go:173-263 | a set of templates has at most one table |
| `RouteTable.OrderIrrelevantIffConsistent` | internal/platform/routers/legacy/router.go:67-80 | the result is the same for every order of insertion if and only if templates with the same tokens store the same names and value |
| `GoSlices.Append` | internal/platform/routers/legacy/pathpattern/node.go:297-301 | append writes into the shared array while there is room and moves to a new one otherwise; what the caller sees stays |
| `PathPattern.Sort` | internal/platform/routers/legacy/pathpattern/node.go:259 | the list is permuted into order, strictly so if its tokens differ |
| `PathPattern.Node.CreateNode` | internal/platform/routers/legacy/pathpattern/node.go:173-263 | walking and extending the tree in place is the update of the table by the template's tokens and names; a missing brace leaves the nodes in front of it |
| `PathPattern.Node.Add` | internal/platform/routers/legacy/pathpattern/node.go:164-171 | adding to the tree in place is adding to the table; it fails exactly for a template with an open brace |
| `PathPattern.Node.Match` | internal/platform/routers/legacy/pathpattern/node.go:265-271 | returns nil exactly if nothing derives, otherwise the node and captures of the first derivation of the slash-trimmed path |
| `PathPattern.Node.MatchRemaining` | internal/platform/routers/legacy/pathpattern/node.go:273-328 | the backtracking search over one shared slice finds what a purely functional search finds, and leaves the caller's part of the slice as it was |
| `PathPattern.SameTableSameTree` | internal/platform/routers/legacy/pathpattern/node.go:238-260 | trees with the same table have the same suffixes in the same order, names and values at every node |
| `Router.NewRouter` | internal/platform/routers/legacy/router.go:61-82 | fails exactly if some template has an open brace; otherwise nodes have values exactly where templates of the document end, each of an operation that ends there, also where templates collide; without collisions the tree is the one table of the document, whatever order the maps yield |
| `Router.DistinctIffConsistent` | internal/platform/routers/legacy/router.go:67-80 | no two operations have templates with the same tokens exactly if their order of insertion does not matter |
| `Router.BindServer` | internal/platform/routers/legacy/router.go:120-132 | the ignored second error cannot occur: the matched server's URL has a name for each capture, and each is bound to its own value |
| `Router.FindRoute` | internal/platform/routers/legacy/router.go:134-162 | returns the route of the first derivation exactly if there is one; the parameters are those of its names, a final "*" dropped, each with the capture of the last variable of that name, and otherwise those of the server; without a derivation, reports an unknown path or a method not allowed, or goes on to read the names of a nil node exactly if the document has the path as it stands, with the verb |
| `Router.BoundToOwnValue` | internal/platform/routers/legacy/router.go:152-161 | every variable is bound to its own capture unless a later one has the same key |
| `Router.BoundByName` | internal/platform/routers/legacy/router.go:149-161 | a variable "k" and a wildcard "k*" are bound under "k" to their own captures unless a later name is stored there too, and every other server parameter stays |
| `Router.OtherKeysStay` | internal/platform/routers/legacy/router.go:149-161 | server parameters stay unless a variable has the same key |
| `Router.TemplateFitsItself` | internal/platform/routers/legacy/router.go:134-147 | the text of a template without slashes between braces is an instance of the template |
| `Router.OwnTextDerives` | internal/platform/routers/legacy/router.go:140-157 | for an operation of live template text without slashes in braces the look-up of its own text finds a node, whatever else the document has, colliding templates included |
| `Router.FoundIsOperation` | internal/platform/routers/legacy/router.go:134-141 | the node that is found holds the route and names of an operation of the document whose template matches the request |
| `Router.FoundHasTheVerb` | internal/platform/routers/legacy/router.go:134-141 | in a document whose paths start with a slash, the operation that is found has the method that was asked for |
| `Router.NoRouteIff` | internal/platform/routers/legacy/router.go:134-147 | in the tree of any document, colliding templates included, a path finds no node exactly if no template of the document matches it |
| `Router.MatchesSomethingIffLive` | internal/platform/routers/legacy/pathpattern/node.go:273-328 | some path matches a template exactly if no variable is followed by text of its own segment and a wildcard comes last |
| `Router.OwnTextRunsIffLive` | internal/platform/routers/legacy/pathpattern/node.go:293-302 | a template without slashes in braces matches its own text exactly if it is live |
| `Router.DeadPathHasNoRoute` | internal/platform/routers/legacy/router.go:135-157 | the document whose one path is "/a{x}b", asked for that very text, has no route, so the names of a nil node are read |
| `SchemaVisitor.NewSettings` | internal/platform/openapi3/schema_validation_settings.go:6-34 | the record holds what the options ask for; of request and response the later option counts, never both |
| `SchemaVisitor.Validator.VisitJSON` | internal/platform/openapi3/schema.go:803-844 | in every mode the error is nil exactly if the schema accepts the value; failfast is restored; every error object has a truthful location and is one of the violations; where errors are collected the error objects are exactly all violations |
| `Reports.ViolationIsReal` | internal/platform/openapi3/schema.go:1144-1906 | a violation names a place in the value, a schema and a keyword of it that the value at that place does not satisfy |
| `Reports.ValidIffNoViolations` | internal/platform/openapi3/schema.go:803-844 | a value is accepted exactly if it has no violations |
| `Reports.EachItemIsReported` | internal/platform/openapi3/schema.go:1552-1571 | every item that is not accepted is reported at its index, not just the first |
| `Reports.EachFieldIsReported` | internal/platform/openapi3/schema.go:1790-1840 | every field that is not accepted is reported at its name |
| `Reports.EachMissingIsReported` | internal/platform/openapi3/schema.go:1855-1878 | every required property that is missing without excuse is reported by name |
| `Keywords.NullIff` | internal/platform/openapi3/schema.go:1113-1127 | null is accepted exactly by a nullable schema |
| `Keywords.NumberIff` | internal/platform/openapi3/schema.go:1144-1260 | of a number: the type, inclusive and exclusive bounds, and being a whole multiple |
| `Keywords.StringIff` | internal/platform/openapi3/schema.go:1267-1385 | of a string: the type, lengths, pattern and format; a length limit from 2^63 on is never missed below and never met above |
| `Keywords.ArrayIff` | internal/platform/openapi3/schema.go:1489-1578 | of a list: the type, counts, different keys, and every item accepted |
| `Keywords.ObjectIff` | internal/platform/openapi3/schema.go:1745-1885 | of an object: the type, counts, every field accepted by its property, by additionalProperties or by a bare true, and every required name there, or read-only in a request or write-only in a response |
| `Keywords.CombinatorsIff` | internal/platform/openapi3/schema.go:846-978 | enum alone if there is one; otherwise not, exactly one counting oneOf alternative, some anyOf and all allOf members |
| `Keywords.CountsIff` | internal/platform/openapi3/schema.go:892-912 | with a discriminator an alternative counts only if the mapping sends the string in that property to its reference |
| `SchemaVisitor.Validator.VisitSetOperations` | internal/platform/openapi3/schema.go:846-978 | enum, not, oneOf with its discriminator, anyOf and allOf give the declared verdict, with failfast restored after each |
| `SchemaVisitor.Validator.VisitPart` | internal/platform/openapi3/schema.go:869-872 | a combined schema is visited with failfast overwritten, the flag is put back, and the verdict does not depend on it |
| `SchemaVisitor.Validator.VisitOneOf` | internal/platform/openapi3/schema.go:885-926 | the count is 1 exactly if exactly one alternative accepts the value and is the one the discriminator names |
| `SchemaVisitor.Validator.VisitJSONNumber` | internal/platform/openapi3/schema.go:1144-1260 | nil exactly if type, bounds and multipleOf hold, in every mode; tells no violation but those of this number, and all of them where errors are collected |
| `SchemaVisitor.Validator.VisitJSONString` | internal/platform/openapi3/schema.go:1267-1385 | nil exactly if lengths, pattern and format hold; the cached pattern is always one that compiles; tells the violations in the same way |
| `SchemaVisitor.Validator.VisitJSONArray` | internal/platform/openapi3/schema.go:1489-1578 | nil exactly if the counts, uniqueness and every item are accepted, in every mode; tells the violations of the list and of all its items |
| `SchemaVisitor.Validator.VisitJSONObject` | internal/platform/openapi3/schema.go:1745-1885 | nil exactly if the counts, every field and every required name are accepted, in every mode and for every order of the fields; tells the violations of the object and of all its fields |
| `SchemaVisitor.Validator.VisitRequired` | internal/platform/openapi3/schema.go:1855-1878 | a missing required property that is not excused is reported with its own name as the last step of the path |
| `SchemaVisitor.Mark` | internal/platform/openapi3/schema.go:1908-1934 | one step is added to every error object once, and truthful locations inside a value become truthful locations in the value around it |
| `SchemaVisitor.IsSliceOfUniqueItems` | internal/platform/openapi3/schema.go:1995-2009 | true exactly if no two items have the same key |
| `SchemaErrors.SchemaError.JSONPointer` | internal/platform/openapi3/schema.go:1936-1943 | the copy turned round in place is the reversed path |
| `SchemaErrors.LeadsToOnePlace` | internal/platform/openapi3/schema.go:1922-1943 | a path leads to at most one place of a value, because different indices are written differently |
| `SchemaErrors.DecimalSpells` | internal/platform/openapi3/schema.go:1922-1926 | an index is spelled in decimal, without leading zeros |
| `SchemaErrors.TruthfulOutside` | internal/platform/openapi3/schema.go:1558-1571 | a location that is truthful inside an element is truthful in the list or object once the index or key is added |
| `FastVerdict.FastIsOpened` | internal/platform/openapi3/schema.go:764-801 | on any graph, in any mode, the fast verdict on a value is the declared verdict on the decoded value in the graph whose closed objects are open where they are visited with the flag off and errors are not collected |
| `FastAgreement.FastAgrees` | internal/platform/openapi3/schema.go:764-801 | both visitors agree on a null-free value with distinct names: always when errors are collected, otherwise if no schema that closes its objects is visited with the flag off and an object that has an undeclared field |
| `FastAgreement.CollectingChangesNothing` | internal/platform/openapi3/schema.go:1670-1706 | on such values, on any graph, it makes no difference to the fast verdict whether errors are collected |
| `FastVerdict.FastAgreesOnEveryValue` | internal/platform/openapi3/schema.go:764-801 | both visitors agree on all such values when errors are collected or no schema that is visited with the flag off closes its objects by a bare false |
| `FastVerdict.FastVisitorOpensClosedObjects` | internal/platform/openapi3/schema.go:1670-1706 | every schema that closes its objects accepts an object with an undeclared field exactly if it is visited with the flag off, errors are not collected, and nothing else is wrong with the object |
| `FastVerdict.ClosedObjectsAreClosed` | internal/platform/openapi3/schema.go:1820-1852 | the other visitor rejects every such object |
| `FastVerdict.AddedFieldIsLetThrough` | internal/platform/openapi3/schema.go:1670-1706 | an accepted object stays accepted by the fast visitor when an undeclared field is added that counts and combinators let through, and the other visitor rejects it |
| `FastVerdict.ClosedGraphDiffers` | internal/platform/openapi3/schema.go:1670-1706 | the smallest closed schema and an object with one field: the visitors differ if neither option is set |
| `FastVerdict.CombinatorsOverwriteTheFlag` | internal/platform/openapi3/schema.go:1050-1110 | below allOf the same schema lets the field through with FailFast too, below anyOf it never does |
| `FastVisitor.FastValidator.VisitFastJSON` | internal/platform/openapi3/schema.go:764-801 | succeeds exactly if the fast verdict for the mode on entry accepts the value; failfast is restored |
| `FastVisitor.FastValidator.VisitFastSetOperations` | internal/platform/openapi3/schema.go:980-1110 | enum, not, oneOf, anyOf and allOf give the fast verdict, with failfast restored |
| `FastVisitor.FastValidator.VisitFastJSONArray` | internal/platform/openapi3/schema.go:1392-1487 | succeeds exactly if the fast verdict on the list does, in every mode |
| `FastVisitor.FastValidator.VisitFastJSONObject` | internal/platform/openapi3/schema.go:1585-1743 | succeeds exactly if the fast verdict on the object does, in every mode |
| `FastVisitor.IsSliceOfUniqueItemsFast` | internal/platform/openapi3/schema.go:1983-1993 | true exactly if no two items have the same key |
| `FastKeywords.FastNullIff` | internal/platform/openapi3/schema.go:764-774 | null is judged after the short cut and the combinators, and then by nullable |
| `FastKeywords.FastArrayIff` | internal/platform/openapi3/schema.go:1392-1487 | of a list, nulls and repeated names inside included: type, counts, different keys, and every item accepted in the same mode |
| `FastKeywords.FastObjectIff` | internal/platform/openapi3/schema.go:1585-1743 | of an object, repeated names included: type, counts, every field accepted, a bare false heeded in three of the four modes, and required names |
| `FastKeywords.FastCombinatorsIff` | internal/platform/openapi3/schema.go:980-1110 | enum by the text of the value, or not, oneOf and anyOf with the flag on and allOf with the flag off |
| `VerdictAgreement.VerdictsAgree` | internal/platform/openapi3/schema.go:803-978 | schemas of two graphs that are paired so that what they refer to is paired too, give the same verdict on every value, however the graphs are cyclic |
| `VerdictAgreement.VerdictIgnoresRanks` | internal/platform/openapi3/schema.go:803-844 | the verdict does not depend on the ranks that show that visits end |
| `VerdictAgreement.ShortcutPreservesVerdict` | internal/platform/openapi3/schema.go:816-818 | where the empty schemas that can be reached are harmless, the IsEmpty short cut changes no verdict on a null-free value |
| `VerdictAgreement.ShortcutPreservesIffHarmless` | internal/platform/openapi3/schema.go:816-818 | among any schemas closed under reference the short cut changes no verdict if and only if none that is empty has a not, several oneOf alternatives, or one with a discriminator |
| `FastEmpty.FastShortcutPreserves` | internal/platform/openapi3/schema.go:764-767 | nor does it in the fast visitor, in any mode, there |
| `FastEmpty.ShortcutPreservesFastIffHarmless` | internal/platform/openapi3/schema.go:764-767 | for the fast visitor the condition is exactly the same |
| `SchemaEmpty.IsEmptyIff` | internal/platform/openapi3/schema.go:538-582 | a schema is empty exactly if none of its own fields is set, discriminator apart, objects are not closed, and all schemas referred to are empty |
| `SchemaEmpty.ShortcutChangesNot` | internal/platform/openapi3/schema.go:538-582 | `not: {}` counts as empty, so the short cut accepts what the visit would reject |
| `SchemaEmpty.ShortcutChangesOneOf` | internal/platform/openapi3/schema.go:538-582 | two empty oneOf alternatives count as empty, so the short cut accepts what the visit would reject |
| `SchemaEmpty.ShortcutChangesDiscriminator` | internal/platform/openapi3/schema.go:538-582 | one empty alternative with a discriminator counts as empty, so the short cut accepts what the visit would reject |
| `SelfValidate.Validate` | internal/platform/openapi3/schema.go:588-722 | terminates on every graph; nil exactly if the verdict under the stack accepts; an error names a defect of a reachable schema |
| `SelfValidate.CheckAlternatives` | internal/platform/openapi3/schema.go:600-608 | stops at the first alternative that passes or is unresolved, and otherwise leaves the last error behind |
| `SelfValidate.CheckRest` | internal/platform/openapi3/schema.go:610-721 | nil exactly if everything but oneOf passes and no error of oneOf is left, which any further child overwrites |
| `SelfValidate.AcceptsIffSupported` | internal/platform/openapi3/schema.go:584-722 | on any graph, oneOf included, the verdict is nil exactly if some set of schemas with the root in it supports itself |
| `SelfValidate.Cut` | internal/platform/openapi3/schema.go:588-594 | what passes because a schema is under way passes without it, if that schema passes |
| `SelfValidate.WellFormedIsAccepted` | internal/platform/openapi3/schema.go:584-722 | if no reachable schema has a defect the verdict is nil, whatever the graph looks like |
| `SelfValidate.DefectsHideBehindOneOf` | internal/platform/openapi3/schema.go:584-722 | of a schema with verdict nil, nothing that is reached along schemas without oneOf has a defect, whatever is elsewhere |
| `SelfValidate.ValidateIffWellFormed` | internal/platform/openapi3/schema.go:584-722 | without reachable oneOf the verdict is nil exactly if no reachable schema has a defect |
| `SelfValidate.OneOfHidesDefects` | internal/platform/openapi3/schema.go:600-608 | a schema with an unknown type and an unresolved reference passes because its first alternative does |
| `SelfKeywords.PassesIff` | internal/platform/openapi3/schema.go:594-722 | one schema passes if a oneOf alternative does and those before it are resolved, or if its type and format fit and all other children pass, of which there have to be some if there is a oneOf |
| `SelfKeywords.WellFormedIff` | internal/platform/openapi3/schema.go:594-722 | a schema has no defect exactly if it is not both read-only and write-only, its type and format are supported, an array has items, and all children of every kind are resolved |
| `RefResolver.SwaggerLoader.ResolveSchemaRef` | internal/platform/openapi3/swagger_loader.go:652-735 | terminates on cyclic documents, with references to references; no Value that was set changes; on success the cell holds the schema its chain of references ends in and all visited schemas but those under way are closed; an error names a nil cell or a dangling reference; the calls made are a run of the algorithm on values |
| `RefResolver.SwaggerLoader.Fill` | internal/platform/openapi3/swagger_loader.go:667-685 | a cell with a reference takes over the schema that its chain of references ends in, which has been visited |
| `RefResolver.SwaggerLoader.ResolveCells` | internal/platform/openapi3/swagger_loader.go:692-732 | on success items, properties, additionalProperties, not, allOf, anyOf and oneOf of the schema all hold visited schemas |
| `RefResolver.SwaggerLoader.ResolveRefsIn` | internal/platform/openapi3/swagger_loader.go:213-217 | on success every component is resolved and every child of every visited schema, of whichever kind, holds a visited schema, for every order of the components; a document without faults succeeds |
| `RefResolver.NothingUnresolved` | internal/platform/openapi3/swagger_loader.go:652-735 | after success no unresolved cell can be reached, and every cell reached holds the schema its chain of references ends in |
| `RefResolver.TargetsOwnSchema` | internal/platform/openapi3/swagger_loader.go:675-683 | the end of a reference to an inline cell is that cell's own schema |
| `RefResolver.AllHaveChildren` | internal/platform/openapi3/swagger_loader.go:692-732 | after success every child of every visited schema, of each of the seven kinds, is there and holds a visited schema |
| `RefResolver.FilledFromChain` | internal/platform/openapi3/swagger_loader.go:667-685 | a cell that has been filled in holds the schema of the inline cell that its references lead to, however many there are |
| `RefResolver.PlanOrKnot` | internal/platform/openapi3/swagger_loader.go:652-735 | every document as it is read, with references to components and to inline cells of schemas, either meets what ResolveSchemaRef asks for, or has aliases that form a knot, and then no order of components that takes in one of them is ever resolved |
| `RefWalk.KnotNeverResolves` | internal/platform/openapi3/swagger_loader.go:675-732 | in every document with a knot, no series of walks that takes in one of its aliases finishes |
| `RefWalk.RankOrKnot` | internal/platform/openapi3/swagger_loader.go:675-683 | the aliases of a document that has not been resolved, none of them a cell of a schema, can be ranked, or some form a knot |
| `RefWalk.KnotHasNoRank` | internal/platform/openapi3/swagger_loader.go:675-683 | not both |
| `RefWalk.RecursionThroughAnAliasDiverges` | internal/platform/openapi3/swagger_loader.go:675-683 | a recursive schema that refers to itself through a second reference is never resolved |
| `RefWalk.AliasOfAliasResolves` | internal/platform/openapi3/swagger_loader.go:675-683 | an alias of an alias of a schema without cells is resolved |
| `RefWalk.AliasInSchemaResolves` | internal/platform/openapi3/swagger_loader.go:652-735 | a recursive reference and a reference to it in one schema are resolved if the first always comes first |
| `RefWalk.AliasInSchemaDiverges` | internal/platform/openapi3/swagger_loader.go:652-735 | the same schema is never resolved if the second always comes first, as items do before properties |
| `ClientPool.NewChanPool` | internal/platform/proxy/chainpool.go:80-130 | fails exactly for invalid capacities; no send of the fill loop blocks |
| `ClientPool.StepKeepsInv` | internal/platform/proxy/chainpool.go:133-208 | one step of any thread keeps the lock's bookkeeping and the facts that make closing and sending safe |
| `ClientPool.SafeInEveryRun` | internal/platform/proxy/chainpool.go:133-208 | in every interleaving nothing is sent on a closed channel, it is closed at most once, idle clients never exceed the capacity, and Get fails only after Close |
| `ClientPool.StepKeepsOwned` | internal/platform/proxy/chainpool.go:156-201 | a step keeps every client in exactly one place: idle, lent, dropped or in one thread's hands |
| `ClientPool.NeverLentTwice` | internal/platform/proxy/chainpool.go:156-201 | if borrowers return only what they hold, a client that Get hands out is not lent, idle or in other hands |
| `ClientPool.ChannelOperationsDoNotBlock` | internal/platform/proxy/chainpool.go:164-200 | the two selects and close can be carried out in every state |
| `ClientPool.NeverStuck` | internal/platform/proxy/chainpool.go:133-208 | in every run, while some call is unfinished some unfinished call can go on |
| `ClientPool.ClosedPoolOnlyDrains` | internal/platform/proxy/chainpool.go:141-201 | once the field is nil it stays nil, and the channel only loses its oldest client to a Get |
| `ClientPool.IdleIsAQueue` | internal/platform/proxy/chainpool.go:156-201 | Get takes the oldest idle client, Put adds at the end while there is room; a client is dropped only if full or closed, and made only if none could be taken |
| `ClientPool.GetFailsIff` | internal/platform/proxy/chainpool.go:154-177 | in every run a Get returns an error exactly if its nil check came after the field was cleared, or it read the channel and found it closed and drained; otherwise it returns the oldest client that was left, or a new one |
| `PoolCalls.PutPutsBackIff` | internal/platform/proxy/chainpool.go:180-201 | in every disciplined run a Put, at most three steps after its call, has put its client at the end of the idle ones exactly if it found the field set and then room; otherwise it has dropped it; it never changes who is lent what |
| `PoolCalls.PutHoldsItsClient` | internal/platform/proxy/chainpool.go:180-201 | until then its client is the one it was called with, and is neither lent nor idle nor dropped |
| `PoolCalls.CloseClosesThePool` | internal/platform/proxy/chainpool.go:141-152 | in every run, once a Close has returned the field is nil for good, and the channel is closed if this Close found it there, and otherwise closed or about to be by another Close |
| `PoolCalls.LenCountsIdle` | internal/platform/proxy/chainpool.go:204-207 | in every run Len counts the clients that are idle at that moment, and none if it read the field after it was cleared |
| `ClientPool.ClearedPoolRefuses` | internal/platform/proxy/chainpool.go:154-160 | a Get that comes to its nil check when the field is nil fails with its next step, whatever the other threads do before it |
| `ClientPool.ClosedPoolMayStillLend` | internal/platform/proxy/chainpool.go:154-177 | a Get whose two unlocked reads straddle a Close hands out a new client of a closed pool |
| `ClientPool.ClosedChannelMayStillLend` | internal/platform/proxy/chainpool.go:154-177 | a Get that read the channel before a Close hands out an idle client of a closed pool |
| `ServerUrl.MatchRawURL` | internal/platform/openapi3/server.go:76-126 | succeeds exactly if the URL is the template with captures that hold no slash and not the next pattern character, and a remainder that is empty or starts with a slash |
| `ServerUrl.ParameterNames` | internal/platform/openapi3/server.go:57-74 | fails exactly if a brace is left open; otherwise the trimmed names in order |
| `ServerUrl.MatchCaptures` | internal/platform/openapi3/server.go:76-126 | what the loop returns is a capture of the template |
| `ServerUrl.CapturesMatch` | internal/platform/openapi3/server.go:76-126 | a capture of the template is what the loop returns, so there is only one |
| `ServerUrl.MatchIsInvertible` | internal/platform/openapi3/server.go:57-126 | as many values as names; the filled template followed by the remainder is the URL |
| `ServerUrl.FilledIsMatched` | internal/platform/openapi3/server.go:76-126 | a URL made by filling in plain values is matched and gives them back |
| `ServerUrl.PlainIff` | internal/platform/openapi3/server.go:90-107 | a plain value holds no slash and not the next character of the template |
| `ServerUrl.PartsInvertWritten` | internal/platform/openapi3/server.go:57-126 | every list of literals and trimmed names is what reading its written form gives back |
| `ServerUrl.NamesAreTrimmed` | internal/platform/openapi3/server.go:70 | the names of any template are trimmed |
| `ServerUrl.PartsIff` | internal/platform/openapi3/server.go:57-88 | a template can be read exactly if a closing brace follows every opening one |
| `Splitting.SplitUndoesJoinIffClean` | internal/platform/openapi3filter/req_resp_decoder.go:377-386 | splitting gives back the joined pieces if and only if no delimiter is found in them but those put between them |
| `StyledParams.ParseArray` | internal/platform/openapi3filter/req_resp_decoder.go:717-730 | all pieces parsed in order, or the failure of the first piece that does not parse, with its index |
| `StyledParams.PrimitiveIff` | internal/platform/openapi3filter/req_resp_decoder.go:735-763 | nothing is read as null, a string as itself, a boolean by ParseBool, and a number and an integer alike by ParseFloat |
| `StyledParams.PrimitiveFails` | internal/platform/openapi3filter/req_resp_decoder.go:735-763 | a text that does not parse is an error of its type; any other type panics, unless the text is empty |
| `StyledParams.FailureNamesItem` | internal/platform/openapi3filter/req_resp_decoder.go:717-730 | the failure of a list has the index and the cause of the first item that does not parse |
| `StyledParams.PropsFromString` | internal/platform/openapi3filter/req_resp_decoder.go:658-694 | the pairs the text spells, later names overriding earlier ones; fails exactly for an odd number of items or an item without exactly one value delimiter |
| `StyledParams.MakeObject` | internal/platform/openapi3filter/req_resp_decoder.go:699-712 | exactly the declared properties, each parsed, or the failure of one of them |
| `StyledParams.MissingIsNull` | internal/platform/openapi3filter/req_resp_decoder.go:699-712 | a declared property that the text does not name is null |
| `StyledParams.DecodePathArray` | internal/platform/openapi3filter/req_resp_decoder.go:352-387 | unsupported styles, missing values and missing prefixes as declared; otherwise the meaning of the pieces |
| `StyledParams.DecodePathObject` | internal/platform/openapi3filter/req_resp_decoder.go:389-436 | unsupported styles, missing values, missing prefixes and malformed pairs as declared; otherwise the meaning of the pairs |
| `StyledParams.DecodeQueryArray` | internal/platform/openapi3filter/req_resp_decoder.go:472-500 | deepObject is refused, no value is nil, otherwise the meaning of the pieces |
| `StyledParams.PathArrayRoundTrip` | internal/platform/openapi3filter/req_resp_decoder.go:352-387 | in every style a non-empty list of strings comes back from the text RFC 6570 writes for it exactly when no item is empty and it is clean for the delimiter, ";name=" included |
| `StyledParams.PathObjectRoundTrip` | internal/platform/openapi3filter/req_resp_decoder.go:389-436 | in every style an object of strings comes back from the text RFC 6570 writes for it, in any order, exactly when no value is empty and no name or value holds a delimiter |
| `StyledParams.QueryArrayRoundTrip` | internal/platform/openapi3filter/req_resp_decoder.go:472-500 | a non-empty list comes back exactly when no item is empty and, unless it is exploded, none holds the delimiter |
| `Splitting.PlainPartsAreClean` | internal/platform/openapi3filter/req_resp_decoder.go:377-386 | pieces without the first character of the delimiter are clean |
| `RefTokens.FragmentTokens` | internal/platform/openapi3/swagger_loader.go:290-298 | no tokens exactly without a leading slash; otherwise every piece unescaped |
| `RefTokens.UnescapeInvertsEscape` | internal/platform/openapi3/swagger_loader.go:928-930 | unescaping gives back every token that was escaped as section 4 of RFC 6901 says |
| `RefTokens.EscapesAre` | internal/platform/openapi3/swagger_loader.go:928-930 | the escapes are "~0" for a tilde and "~1" for a slash, and no others |
| `RefTokens.EscapeInvertsUnescapeIff` | internal/platform/openapi3/swagger_loader.go:928-930 | escaping what was unescaped gives back exactly the texts without slash in which 0 or 1 follows every tilde |
| `RefTokens.PointerRoundTrip` | internal/platform/openapi3/swagger_loader.go:290-298 | every non-empty list of tokens is read back from the pointer written for it |

## Left out

- Regular-expression suffixes: `SupportRegExp` is false in `DefaultOptions`, which is all the router uses.
- Text: strings are sequences of characters without encoding; `strings.TrimSpace` is modelled for ASCII white space, the length of a string is its number of code points, and nothing is said about surrogates.
- Numbers: schema bounds and values are reals; IEEE rounding, NaN, infinities and the text of numbers are not modelled.
- Upper-casing of methods, the validation of the document inside NewRouter, the choice among several servers by MatchURL, and the panic of GetOperation for an unknown verb.
- `Schemas`: references are resolved, exclusive bounds have their bound set, enumerated values are scalar, and combinators are acyclic; outside these hypotheses the Go visitors may panic or not end.
- Discriminator values that are not strings make visitJSON panic; `StringDiscriminators` excludes them.
- Error texts and reasons, and the errors that oneOf and allOf wrap: an error object keeps its path, schema, field, value and origin; of the origin nothing is stated.
- FastVisitor.FastValidator.VisitFastJSON: states whether there is an error, not which errors; their contents are those of the other visitor.
- SelfValidate.Validate: the stack is a value here; in the Go code it is a slice that siblings append to, each behind its own length.
- RefResolver.SwaggerLoader.ResolveSchemaRef: asks for a rank of the aliases. Unless a cell inside a schema is an alias itself that is no restriction (`PlanOrKnot`); if one is, the rank is only sufficient, because the order of the cells may decide (`AliasInSchemaResolves`, `AliasInSchemaDiverges`).
- RefWalk.KnotNeverResolves: says that no finite tree of calls succeeds; that the Go stack then overflows is not part of the model.
- RefResolver: every reference contains a "#"; references to whole files, document paths, URL joining and decoding of untyped extensions are not modelled.
- RefResolver.SwaggerLoader.ResolveRefsIn: only the schema components; the other kinds of component repeat the pattern.
- RefTokens.FragmentTokens: percent-decoding by the URL parser has taken place before.
- ClientPool.NewChanPool: certificates and TLS settings are not modelled, and the factory does not fail, as in the code.
- ClientPool: a waiting writer does not hold up new readers, so the model allows more interleavings than Go's lock; fairness is not modelled.
- StyledParams.DecodeQueryArray: the query arguments are given as the list of values of the parameter.
- Primitive parameters, objects in the query, headers, cookies and bodies: short branches over the same helpers.
- HTTP serving, the proxy middleware, OAuth, denylists, configuration, logging and response encoding.
