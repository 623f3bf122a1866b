# Code lens providers of codelens-eclipse, modelled in Dafny

This project models the two code lens providers of codelens-eclipse.

- **`JavaReferencesCodeLensProvider`** (JDT). `provideCodeLenses` walks the children of a Java compilation unit.
  - It polls the progress monitor before each element.
  - It descends into every type.
  - It puts one lens on the name of each type and of each method that is not a hidden generated element.
  - It puts a second lens at the same place on each interface or abstract type.
  - When cancellation arrives late, it empties the list.
  - It returns null when the unit is missing, when the unit's resource does not exist, when cancellation is requested on entry, or when a JDT call throws.

  `resolveCodeLens` looks up the element under a lens again and runs a workspace search for references to it. It keeps the matches that are Java elements inside a known compilation unit, and labels the lens "N references".
- **`ClassReferencesCodeLensProvider`** (sample). It scans the document line by line.
  - A line whose first `class ` is followed by a non-space character gets a lens on its 1-based line number. The lens is named by the text from there up to the next space or the end of the line, so `class Foo{` gives `Foo{`.
  - Resolving a lens counts the lines that contain `new <ClassName>`.

Modules:

- `JavaStrings` (strings.dfy): the `String.indexOf`, `String.contains` and `Integer.toString` behaviour the providers rely on.
- `CodeLensApi` (codelens_api.dfy): `Command`, the "N references" title, and counting matches.
- `JavaReferences` (java_references.dfy): the JDT provider.
  - The compilation unit is a tree of `Decl` values.
  - Failing JDT calls are modelled in three ways.
    - A name range that cannot be read (`getNameRange` throws) is an `Attempt` that is `Threw`.
    - A `getChildren` that throws is the boolean `membersReadable` of a type, or `childrenReadable` of the unit, set to false.
    - A failure of `isInterface` or `getFlags` is folded into the name range failing.
  - The lens, the lens list and the progress monitor are classes whose fields the methods update.
  - `Lenses` is the reference definition of the produced layout, and `CollectCodeLenses` / `ProvideCodeLenses` are proved against it.
- `ClassReferences` (class_references.dfy): the sample provider.
  - The `IDocument` is modelled as lines, each with an optional delimiter.
  - `Sites` is the reference definition of where lenses go.

Where the code does not do what its own names suggest, the model follows the code. Examples are the unused `type` parameter of `getCodeLens` and the unused `IMPLEMENTATION_TYPE` constant:

- `getCodeLens` ignores its `type` argument. The second lens of an interface or abstract type is therefore identical to the first: same range, and no separate "implementations" behaviour.
- The label always reads "<count> references".
- When no element is found at a lens's range, `findReferences` gets null and returns an empty list. The lens then reads "0 references"; it is not left unresolved.

## Model

| member | source | states |
|---|---|---|
| JavaStrings.IndexOf | org.eclipse.codelens.samples/src/org/eclipse/codelens/samples/ClassReferencesCodeLensProvider.java:24 | -1 exactly when the pattern occurs nowhere; otherwise the position of its first occurrence |
| JavaStrings.ContainsExactly | org.eclipse.codelens.samples/src/org/eclipse/codelens/samples/ClassReferencesCodeLensProvider.java:48 | `contains` holds exactly when the pattern occurs somewhere in the line |
| JavaStrings.DecimalString | org.eclipse.codelens.samples/src/org/eclipse/codelens/samples/ClassReferencesCodeLensProvider.java:50 | the count is printed as a non-empty string of decimal digits with no leading zero |
| JavaStrings.DecimalRoundTrip | org.eclipse.codelens.samples/src/org/eclipse/codelens/samples/ClassReferencesCodeLensProvider.java:50 | reading the printed digits back gives the count |
| JavaStrings.DecimalStringInjective | org.eclipse.codelens.samples/src/org/eclipse/codelens/samples/ClassReferencesCodeLensProvider.java:50 | different counts print differently |
| CodeLensApi.ReferencesLabel | org.eclipse.codelens.jdt/src/org/eclipse/codelens/jdt/internal/JavaReferencesCodeLensProvider.java:118-119 | the title is longer than " references" and ends with it |
| CodeLensApi.LabelRoundTrip | org.eclipse.codelens.jdt/src/org/eclipse/codelens/jdt/internal/JavaReferencesCodeLensProvider.java:118-119 | parsing the title gives back the reference count |
| CodeLensApi.LabelInjective | org.eclipse.codelens.samples/src/org/eclipse/codelens/samples/ClassReferencesCodeLensProvider.java:50 | two lenses with the same title have the same count |
| CodeLensApi.CountWhere | org.eclipse.codelens.samples/src/org/eclipse/codelens/samples/ClassReferencesCodeLensProvider.java:44-49 | a count of passing elements never exceeds the number of elements |
| CodeLensApi.CountWhereIsPositionCount | org.eclipse.codelens.samples/src/org/eclipse/codelens/samples/ClassReferencesCodeLensProvider.java:46-49 | the count is the number of positions whose element passes the test, each counted once |
| CodeLensApi.CountWhereAll | org.eclipse.codelens.samples/src/org/eclipse/codelens/samples/ClassReferencesCodeLensProvider.java:46-49 | the count equals the length exactly when every element passes |
| ClassReferences.StoredAtOffset | org.eclipse.codelens.samples/src/org/eclipse/codelens/samples/ClassReferencesCodeLensProvider.java:56-57 | the characters at a line's offset, for its length, are that line with its delimiter |
| ClassReferences.GetLineText | org.eclipse.codelens.samples/src/org/eclipse/codelens/samples/ClassReferencesCodeLensProvider.java:54-67 | None exactly for a line the document lacks; otherwise the line's text, with its delimiter exactly when asked for, and the length is the line length minus the delimiter |
| ClassReferences.ClassNameIsWordAfterKeyword | org.eclipse.codelens.samples/src/org/eclipse/codelens/samples/ClassReferencesCodeLensProvider.java:24-30 | no name exactly when the line lacks "class "; otherwise the name starts right after the first "class ", contains no space, and ends at a space or at the end of the line |
| ClassReferences.ExtractClassName | org.eclipse.codelens.samples/src/org/eclipse/codelens/samples/ClassReferencesCodeLensProvider.java:24-30 | the indexOf/substring steps find a name exactly when ClassNameOf does, and the same name |
| ClassReferences.SitesStep | org.eclipse.codelens.samples/src/org/eclipse/codelens/samples/ClassReferencesCodeLensProvider.java:22-35 | the lenses for one more line are the earlier ones plus at most that line's lens |
| ClassReferences.SitesAreDeclarations | org.eclipse.codelens.samples/src/org/eclipse/codelens/samples/ClassReferencesCodeLensProvider.java:22-35 | every lens sits on an existing 1-based line whose extracted class name it carries; the name is non-empty and has no space |
| ClassReferences.DeclarationsHaveSites | org.eclipse.codelens.samples/src/org/eclipse/codelens/samples/ClassReferencesCodeLensProvider.java:31-33 | every line with a non-empty class name gets its lens |
| ClassReferences.SitesAscending | org.eclipse.codelens.samples/src/org/eclipse/codelens/samples/ClassReferencesCodeLensProvider.java:22-35 | lenses come in strictly increasing line order, so no line has two |
| ClassReferences.LineWithSite | org.eclipse.codelens.samples/src/org/eclipse/codelens/samples/ClassReferencesCodeLensProvider.java:31-33 | appending the lens of a declaring line keeps the list equal to the sites of the lines so far |
| ClassReferences.LineWithoutSite | org.eclipse.codelens.samples/src/org/eclipse/codelens/samples/ClassReferencesCodeLensProvider.java:25-34 | a line without a non-empty class name adds no site |
| ClassReferences.ClassCodeLens.constructor | org.eclipse.codelens.samples/src/org/eclipse/codelens/samples/ClassCodeLens.java:9-12 | the lens remembers its class name and start line, and has no command yet |
| ClassReferences.ProvideCodeLenses | org.eclipse.codelens.samples/src/org/eclipse/codelens/samples/ClassReferencesCodeLensProvider.java:17-37 | the returned lenses are exactly the sites of the document's lines, in order; all are new and unresolved |
| ClassReferences.ResolveCodeLens | org.eclipse.codelens.samples/src/org/eclipse/codelens/samples/ClassReferencesCodeLensProvider.java:40-52 | returns the same lens, now titled with the number of lines that contain "new <ClassName>" |
| ClassReferences.ResolvedCountIsMentioningLines | org.eclipse.codelens.samples/src/org/eclipse/codelens/samples/ClassReferencesCodeLensProvider.java:44-49 | that count is the number of mentioning lines (each line at most once), so at most the number of lines |
| JavaReferences.OwnLenses | org.eclipse.codelens.jdt/src/org/eclipse/codelens/jdt/internal/JavaReferencesCodeLensProvider.java:79-90 | a type or visible method with a readable name gets two lenses if it is an interface or abstract type, else one; a skipped element gets none; every lens sits at the element's name range |
| JavaReferences.LensesStep | org.eclipse.codelens.jdt/src/org/eclipse/codelens/jdt/internal/JavaReferencesCodeLensProvider.java:69-91 | the lenses of one more sibling follow those of the earlier siblings |
| JavaReferences.LensesFollowEnumeration | org.eclipse.codelens.jdt/src/org/eclipse/codelens/jdt/internal/JavaReferencesCodeLensProvider.java:67-92 | the layout is each declaration's own lenses, in the post-order in which collectCodeLenses reaches the declarations |
| JavaReferences.DeclLensesFollowEnumeration | org.eclipse.codelens.jdt/src/org/eclipse/codelens/jdt/internal/JavaReferencesCodeLensProvider.java:73-90 | the same for the lenses made at a single declaration |
| JavaReferences.EnumerateIsForwardedNodes | org.eclipse.codelens.jdt/src/org/eclipse/codelens/jdt/internal/JavaReferencesCodeLensProvider.java:69-77 | the walk reaches every type and visible method of the tree exactly once and nothing else (a rearrangement of them in source order) |
| JavaReferences.EnumerateDeclIsForwardedNodes | org.eclipse.codelens.jdt/src/org/eclipse/codelens/jdt/internal/JavaReferencesCodeLensProvider.java:73-77 | the same for the subtree of one declaration |
| JavaReferences.LensCount | org.eclipse.codelens.jdt/src/org/eclipse/codelens/jdt/internal/JavaReferencesCodeLensProvider.java:67-92 | with no JDT failure, the lens count is the number of types and visible methods plus the number of interfaces and abstract types |
| JavaReferences.DeclLensCount | org.eclipse.codelens.jdt/src/org/eclipse/codelens/jdt/internal/JavaReferencesCodeLensProvider.java:73-90 | the same count for one declaration's subtree |
| JavaReferences.MembersPrecedeType | org.eclipse.codelens.jdt/src/org/eclipse/codelens/jdt/internal/JavaReferencesCodeLensProvider.java:73-74 | in the walk, a type's members form one block that ends right before the type |
| JavaReferences.MembersPrecedeTypeInDecl | org.eclipse.codelens.jdt/src/org/eclipse/codelens/jdt/internal/JavaReferencesCodeLensProvider.java:73-74 | the same inside one declaration's subtree |
| JavaReferences.TypeLensesFollowMembers | org.eclipse.codelens.jdt/src/org/eclipse/codelens/jdt/internal/JavaReferencesCodeLensProvider.java:73-90 | for every type in the tree, its members' lenses followed by its own lenses form one unbroken block of the result |
| JavaReferences.TypeLensesFollowMembersInDecl | org.eclipse.codelens.jdt/src/org/eclipse/codelens/jdt/internal/JavaReferencesCodeLensProvider.java:73-90 | the same inside one declaration's lenses |
| JavaReferences.InterfaceWithOneMethod | org.eclipse.codelens.jdt/src/org/eclipse/codelens/jdt/internal/JavaReferencesCodeLensProvider.java:67-92 | an interface Foo holding a method bar yields the lenses bar, Foo, Foo |
| JavaReferences.JavaCodeLens.constructor | org.eclipse.codelens.jdt/src/org/eclipse/codelens/jdt/internal/JavaReferencesCodeLensProvider.java:98 | a new lens has the given range and no command |
| JavaReferences.LensList.Add | org.eclipse.codelens.jdt/src/org/eclipse/codelens/jdt/internal/JavaReferencesCodeLensProvider.java:81 | the list gains the lens at its end |
| JavaReferences.LensList.Clear | org.eclipse.codelens.jdt/src/org/eclipse/codelens/jdt/internal/JavaReferencesCodeLensProvider.java:55-57 | the list becomes empty |
| JavaReferences.ProgressMonitor.IsCanceled | org.eclipse.codelens.jdt/src/org/eclipse/codelens/jdt/internal/JavaReferencesCodeLensProvider.java:70-72 | answers whether cancellation had been requested before the poll, and counts the poll |
| JavaReferences.GetCodeLens | org.eclipse.codelens.jdt/src/org/eclipse/codelens/jdt/internal/JavaReferencesCodeLensProvider.java:94-103 | succeeds exactly when the name range is readable, giving a new unresolved lens at that range whatever the kind |
| JavaReferences.CollectCodeLenses | org.eclipse.codelens.jdt/src/org/eclipse/codelens/jdt/internal/JavaReferencesCodeLensProvider.java:67-92 | only appends to the list; it appends new unresolved lenses; a throw means some element was unreadable; with no throw and no cancellation, the appended ranges are exactly `Lenses(elements)` |
| JavaReferences.CollectElement | org.eclipse.codelens.jdt/src/org/eclipse/codelens/jdt/internal/JavaReferencesCodeLensProvider.java:73-90 | for one type or visible method: the members' lenses, then the reference lens, then the second lens when there is one; a throw means the element was unreadable |
| JavaReferences.SkipStep | org.eclipse.codelens.jdt/src/org/eclipse/codelens/jdt/internal/JavaReferencesCodeLensProvider.java:75-76 | a skipped element neither throws nor adds lenses |
| JavaReferences.CollectStep | org.eclipse.codelens.jdt/src/org/eclipse/codelens/jdt/internal/JavaReferencesCodeLensProvider.java:69-91 | the lenses added at element i extend the layout of the first i elements to that of the first i+1 |
| JavaReferences.ElementLenses | org.eclipse.codelens.jdt/src/org/eclipse/codelens/jdt/internal/JavaReferencesCodeLensProvider.java:73-90 | the members' lenses followed by the element's own lenses are that element's part of the layout |
| JavaReferences.OwnRanges | org.eclipse.codelens.jdt/src/org/eclipse/codelens/jdt/internal/JavaReferencesCodeLensProvider.java:80-88 | lenses made at the element's name range have exactly the ranges `OwnLenses` lists |
| JavaReferences.ProvideCodeLenses | org.eclipse.codelens.jdt/src/org/eclipse/codelens/jdt/internal/JavaReferencesCodeLensProvider.java:46-65 | null with no poll when the unit or its resource is missing; null when cancellation was requested on entry; a readable unit with no cancellation on entry always gives an array; the array is empty when a later poll saw cancellation, and is otherwise exactly `Lenses(children)` of a readable unit; without cancellation an array comes back exactly when the unit is readable; all lenses are new and unresolved |
| JavaReferences.FindReferences | org.eclipse.codelens.jdt/src/org/eclipse/codelens/jdt/internal/JavaReferencesCodeLensProvider.java:127-155 | no element gives an empty list; otherwise it fails exactly when the search does, and holds one null entry per accepted match |
| JavaReferences.ResolveCodeLens | org.eclipse.codelens.jdt/src/org/eclipse/codelens/jdt/internal/JavaReferencesCodeLensProvider.java:106-125 | returns the same lens; the command is unchanged with no unit, or when the lookup or the search throws; "0 references" when no element is found; otherwise "N references" for N accepted matches |
| JavaReferences.ResolvedCountIsAcceptedMatches | org.eclipse.codelens.jdt/src/org/eclipse/codelens/jdt/internal/JavaReferencesCodeLensProvider.java:139-150 | N is the number of accepted matches, at most the number of matches, and equal to it exactly when every match is a Java element inside a known compilation unit |
| CodeLensApi.ReferencesCommand | org.eclipse.codelens.jdt/src/org/eclipse/codelens/jdt/internal/JavaReferencesCodeLensProvider.java:119 | the command has the empty id, and its title reads back as the count |
| ClassReferences.ClassNameOf | org.eclipse.codelens.samples/src/org/eclipse/codelens/samples/ClassReferencesCodeLensProvider.java:24-30 | no name exactly when the line does not contain "class "; a name always fits in the line after the keyword |
| ClassReferences.SitesCount | org.eclipse.codelens.samples/src/org/eclipse/codelens/samples/ClassReferencesCodeLensProvider.java:22-35 | the number of lenses `Sites` gives is the number of lines declaring a non-empty class name, so at most the number of lines |
| ClassReferences.MentionsNewExactly | org.eclipse.codelens.samples/src/org/eclipse/codelens/samples/ClassReferencesCodeLensProvider.java:48 | a line is counted exactly when "new <ClassName>" occurs somewhere in it |
| ClassReferences.ClassCodeLens.SetCommand | org.eclipse.codelens.samples/src/org/eclipse/codelens/samples/ClassReferencesCodeLensProvider.java:50 | the lens's command becomes the given one |
| JavaReferences.Lenses | org.eclipse.codelens.jdt/src/org/eclipse/codelens/jdt/internal/JavaReferencesCodeLensProvider.java:67-92 | the reference layout: at most two lenses per declaration of the tree (its relation to the walk is `LensesFollowEnumeration`, its exact size `LensCount`) |
| JavaReferences.DeclLenses | org.eclipse.codelens.jdt/src/org/eclipse/codelens/jdt/internal/JavaReferencesCodeLensProvider.java:73-90 | a declaration's part of the layout: at most two lenses per declaration of its subtree |
| JavaReferences.LensesExactlyOnForwarded | org.eclipse.codelens.jdt/src/org/eclipse/codelens/jdt/internal/JavaReferencesCodeLensProvider.java:73-81 | a declaration gets lenses exactly when it is a type or a method that is not hidden, and its name range can be read |
| JavaReferences.SecondLensRepeatsFirst | org.eclipse.codelens.jdt/src/org/eclipse/codelens/jdt/internal/JavaReferencesCodeLensProvider.java:84-88 | two lenses are made only for an interface or abstract type, and both sit at its name range |
| JavaReferences.JavaCodeLens.SetCommand | org.eclipse.codelens.jdt/src/org/eclipse/codelens/jdt/internal/JavaReferencesCodeLensProvider.java:119 | the lens's command becomes the given one |
| JavaReferences.LensList.constructor | org.eclipse.codelens.jdt/src/org/eclipse/codelens/jdt/internal/JavaReferencesCodeLensProvider.java:53 | the lens list starts empty |
| JavaReferences.OnlyElementsInUnitsCount | org.eclipse.codelens.jdt/src/org/eclipse/codelens/jdt/internal/JavaReferencesCodeLensProvider.java:141-147 | of a hit that is not a Java element, a Java element outside any compilation unit and one inside a unit, only the last is counted |

## Left out

- Editor and workspace plumbing is not modelled; these become parameters.
  - `JDTUtils.resolveCompilationUnit` becomes an optional unit.
  - `JDTUtils.findElementAtSelection` becomes a function parameter.
  - Building the search pattern, the scope (`createSearchScope`) and running `SearchEngine.search` become one `search` parameter. Its `Threw` outcome stands for any exception, including cancellation of the search.
- `JDTUtils.toRange` (offset to line/column conversion) is not modelled. A name range is given directly as a `Range`.
- A failure of `isInterface` or `getFlags` is folded into a failure of `getNameRange`. All three are reached with no poll in between, and either way the whole result is discarded as null.
- `isHiddenGeneratedElement` is not modelled; it becomes the `hidden` flag of a method declaration.
- Both providers catch exceptions and then log them (`printStackTrace`). The logging is not modelled.
- Concurrency between the host and the providers is not modelled. The host's cancellation requests are a schedule fixed up front (`cancelAt`), seen at the monitor's polls.
- ClassReferences.ProvideCodeLenses and ClassReferences.ResolveCodeLens: they take the document instead of a context. The progress monitor is not modelled because this provider never reads it.
- ClassReferences.ResolveCodeLens: a null lens, or a lens of another class, throws in the source. The model takes a non-null `ClassCodeLens`.
- JavaReferences.ResolveCodeLens: the cast to `JavaCodeLens` is modelled by typing the parameter as `JavaCodeLens?`.
- JavaReferences.FindReferences: the `Location` of a match is never built in the source, and the model adds None for it likewise. The offset and length of matches are carried but unused.
- ViewZoneDemo is not part of this model; it is a UI demo outside the two providers.
- ClassReferences.GetLineText: a negative line number cannot be expressed, because lines are `nat`.
