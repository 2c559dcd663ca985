# DSpace script launcher and author-name processor, in Dafny

This project models three pieces of DSpace:

- The command dispatcher of the `dspace` command-line launcher (`ScriptLauncher.runOneCommand` and `ScriptLauncher.display`). A command name is looked up in the catalog of commands, ignoring case. The command's steps then run in order. For each step the launcher:
  - resolves the step's class by name;
  - builds the argument vector;
  - starts a request;
  - invokes the class's `main`;
  - ends the request.
- The step record the catalog is made of (`StepType`). Its `getArgument` lazily creates a live list.
- The metadata processor that normalises author names (`AuthorMetadataProcessorService.processMetadataValue`). It strips surrounding whitespace, then every trailing dot.

Files:

- `wrappers.dfy`: `Option`. `None` stands for a Java `null`.
- `step_type.dfy` (module `StepTypes`): the `StepType` class, with its fields updated in place, and the `Step` value the launcher reads through its getters.
- `catalog.dfy` (module `Catalog`):
  - the catalog order that `getConfig` produces;
  - the `equalsIgnoreCase` lookup as a specification function (`Lookup`);
  - the lookup loop (`FindCommand`) proved against it.
- `listing.dfy` (module `Listing`): the usage listing. The `TreeMap` is a strictly ascending sequence of commands, and `Put` overwrites an equal key. `Display` holds both loops of `display`, proved equal to `Render(SortedListing(catalog))`.
- `dispatcher.dfy` (module `Dispatcher`):
  - The argument vector, as a function (`ArgVector`) and as the array-copying code (`BuildUseArgs`).
  - One step of the loop as a function (`RunStep`), and the step loop as a function over the steps' results (`Pipeline`).
  - The imperative launcher over a `Kernel` object. The kernel holds the class table, whether a `RequestService` is registered, and a trace of `startRequest`, `main` and `endRequest` events. Its methods are proved equal to `Dispatch`.
  - Lemmas:
    - the trace is always properly bracketed;
    - the first failure aborts the command;
    - status 0 iff every step returns normally;
    - the `dsrun` special case;
    - three concrete scenarios.
- `author_processor.dfy` (module `AuthorProcessor`): commons-lang `strip`/`stripEnd` with Java's `Character.isWhitespace` written out, `processMetadataValue`, and its properties. The properties include that it is not idempotent.

Reflection is a table from class name to the behaviour of that class's `main`:

- `Returned`, or `Threw(Failure(cause))`;
- `cause` is `None` when the thrown exception has no cause. A class without a `main` method is one whose behaviour throws without a cause, as `getMethod` does.

A run ends with either of two outcomes:

- `Status(code)`: the `int` that `runOneCommand` returns.
- `Crash(reason)`: an exception that escapes `runOneCommand`. The reasons are:
  - `Class.forName(null)` for a step without a class;
  - the `IllegalStateException` for a missing `RequestService`;
  - the `NullPointerException` of `cause.getMessage()` at line 247, thrown after `endRequest(e)` when the exception has no cause.

Behaviours of the code worth noting:

- **The reserved run-any-class command is `dsrun`, and the check is exact and case-sensitive.** "DSRUN" finds the same command through `equalsIgnoreCase`. It then runs the step's own class with one argument skipped (`Dispatcher.DsrunIsCaseSensitive`).
- **The missing-class-name check for `dsrun` is inside the step loop.** A `dsrun` command with no steps therefore returns 0 even without a class name (`Dispatcher.DsrunWithoutClassName`).
- **`processMetadataValue` strips every trailing dot, not only the last one as its doc comment says** (`AuthorProcessor.TwoDotsBothRemoved`).

## Model

| member | source | states |
|---|---|---|
| StepTypes.StepType.constructor | dspace-api/src/main/java/org/dspace/app/launcher/StepType.java:35-40 | a fresh step has no class name, no argument list and no passuserargs attribute |
| StepTypes.StepType.View | dspace-api/src/main/java/org/dspace/app/launcher/StepType.java:35-40 | the step as read through the getters: the same class name and passuserargs, and the list's items, or no items when the list was never created |
| StepTypes.StepType.GetClassName | dspace-api/src/main/java/org/dspace/app/launcher/StepType.java:50-52 | returns the stored class name |
| StepTypes.StepType.SetClassName | dspace-api/src/main/java/org/dspace/app/launcher/StepType.java:63-65 | stores the given class name and changes no other field |
| StepTypes.StepType.GetArgument | dspace-api/src/main/java/org/dspace/app/launcher/StepType.java:89-94 | never null. The first call stores a fresh empty list; later calls return that same stored list, not a copy. The step's view is unchanged |
| StepTypes.StepType.GetPassuserargs | dspace-api/src/main/java/org/dspace/app/launcher/StepType.java:104-106 | returns the stored passuserargs attribute |
| StepTypes.StepType.SetPassuserargs | dspace-api/src/main/java/org/dspace/app/launcher/StepType.java:116-118 | stores the given attribute and changes no other field |
| StepTypes.ArgumentList.constructor | dspace-api/src/main/java/org/dspace/app/launcher/StepType.java:91 | the list created on first access is empty |
| StepTypes.ArgumentList.Add | dspace-api/src/main/java/org/dspace/app/launcher/StepType.java:77-79 | appends one item to the live list |
| StepTypes.AddArgument | dspace-api/src/main/java/org/dspace/app/launcher/StepType.java:70-94 | `getArgument().add(x)` adds x at the end of the step's arguments; the class name and attribute are unchanged |
| StepTypes.SetThenGetClassName | dspace-api/src/main/java/org/dspace/app/launcher/StepType.java:50-65 | reading the class name back after setting it yields the value set; nothing else changes |
| StepTypes.SetThenGetPassuserargs | dspace-api/src/main/java/org/dspace/app/launcher/StepType.java:104-118 | reading passuserargs back after setting it yields the value set; nothing else changes |
| Catalog.Config | dspace-api/src/main/java/org/dspace/app/launcher/ScriptLauncher.java:274-276 | the catalog holds the service-registered commands first, then the launcher.xml commands, each group in its own order |
| Catalog.Lookup | dspace-api/src/main/java/org/dspace/app/launcher/ScriptLauncher.java:107-118 | no result iff no command's name equals the request ignoring case; otherwise the first such command in catalog order |
| Catalog.FindCommand | dspace-api/src/main/java/org/dspace/app/launcher/ScriptLauncher.java:109-118 | the scan with `break` finds exactly the command Lookup specifies |
| Catalog.LookupPrefix | dspace-api/src/main/java/org/dspace/app/launcher/ScriptLauncher.java:111-118 | a command found in a catalog is still the one found once more commands are appended |
| Catalog.RegisteredCommandsWin | dspace-api/src/main/java/org/dspace/app/launcher/ScriptLauncher.java:274-276 | when a service-registered command matches, the lookup returns the registered match, whatever launcher.xml holds |
| Catalog.LookupIgnoresCase | dspace-api/src/main/java/org/dspace/app/launcher/ScriptLauncher.java:113 | requests that differ only in letter case find the same command |
| Listing.LessIrreflexive | dspace-api/src/main/java/org/dspace/app/launcher/ScriptLauncher.java:301 | no key is below itself in the TreeMap's order |
| Listing.LessAsymmetric | dspace-api/src/main/java/org/dspace/app/launcher/ScriptLauncher.java:301 | two keys are never each below the other |
| Listing.LessTrichotomy | dspace-api/src/main/java/org/dspace/app/launcher/ScriptLauncher.java:301 | any two keys are equal or one is below the other |
| Listing.LessTransitive | dspace-api/src/main/java/org/dspace/app/launcher/ScriptLauncher.java:301 | the key order is transitive |
| Listing.Put | dspace-api/src/main/java/org/dspace/app/launcher/ScriptLauncher.java:304 | after the put the map is still in strictly ascending key order and holds the command. Its keys are the old keys plus the command's name. Every other entry is an old one with a different name, and every old entry with a different name is kept |
| Listing.SortedListing | dspace-api/src/main/java/org/dspace/app/launcher/ScriptLauncher.java:301-305 | the filled map is ascending, has exactly the catalog's names, and holds for each name the last catalog command with that name |
| Listing.Render | dspace-api/src/main/java/org/dspace/app/launcher/ScriptLauncher.java:308-313 | the usage header first, then one " - name: description" line per entry in order |
| Listing.AscendingHasDistinctNames | dspace-api/src/main/java/org/dspace/app/launcher/ScriptLauncher.java:301 | entries at different positions of the map have different names |
| Listing.AscendingUnique | dspace-api/src/main/java/org/dspace/app/launcher/ScriptLauncher.java:301-305 | two ascending maps with the same entries are the same sequence |
| Listing.ListingIgnoresCatalogOrder | dspace-api/src/main/java/org/dspace/app/launcher/ScriptLauncher.java:301-305 | catalogs with the same names and the same last command per name give the same listing, whatever their order |
| Listing.Display | dspace-api/src/main/java/org/dspace/app/launcher/ScriptLauncher.java:293-313 | the lines printed are the rendering of the sorted listing of the catalog |
| Dispatcher.ArgVector | dspace-api/src/main/java/org/dspace/app/launcher/ScriptLauncher.java:163-206 | reference definition of the arguments main receives: the step's own arguments, then the raw arguments past the request (and, for dsrun, past the class name) unless forwarding is off or none are left |
| Dispatcher.ArgVectorLayout | dspace-api/src/main/java/org/dspace/app/launcher/ScriptLauncher.java:161-206 | main's arguments are the step's arguments in order. They are followed, unless forwarding is off, by every raw argument past the skipped ones, in order. The length is the sum |
| Dispatcher.ForwardingSwitch | dspace-api/src/main/java/org/dspace/app/launcher/ScriptLauncher.java:165-173 | the exact value "false" passes the step's arguments alone; any other value, including null, appends `args[skip..]` |
| Dispatcher.CloneArgs | dspace-api/src/main/java/org/dspace/app/launcher/ScriptLauncher.java:163 | a fresh array with the raw arguments |
| Dispatcher.CopyFrom | dspace-api/src/main/java/org/dspace/app/launcher/ScriptLauncher.java:176-188 | a fresh array with the entries from index x on |
| Dispatcher.Prepend | dspace-api/src/main/java/org/dspace/app/launcher/ScriptLauncher.java:191-206 | a fresh array with the step's arguments followed by the given entries |
| Dispatcher.BuildUseArgs | dspace-api/src/main/java/org/dspace/app/launcher/ScriptLauncher.java:161-206 | the array handed to main is the argument vector |
| Dispatcher.Kernel.ForName | dspace-api/src/main/java/org/dspace/app/launcher/ScriptLauncher.java:149-159 | a class resolves iff the class loader knows its name |
| Dispatcher.Kernel.StartRequest | dspace-api/src/main/java/org/dspace/app/launcher/ScriptLauncher.java:219 | records that a request started |
| Dispatcher.Kernel.EndRequest | dspace-api/src/main/java/org/dspace/app/launcher/ScriptLauncher.java:238-243 | records that the request ended, with the failure or with null |
| Dispatcher.Kernel.InvokeMain | dspace-api/src/main/java/org/dspace/app/launcher/ScriptLauncher.java:234-235 | records the call of main with its arguments and returns how the class's main ends |
| Dispatcher.RunStep | dspace-api/src/main/java/org/dspace/app/launcher/ScriptLauncher.java:132-250 | reference definition of one step: status 1 for dsrun without a class name or an unresolvable class, a crash for a null class name or a missing request service; otherwise Start, Main and End, continuing iff main returns, and otherwise status 1 or, for a failure without a cause, a crash |
| Dispatcher.Pipeline | dspace-api/src/main/java/org/dspace/app/launcher/ScriptLauncher.java:128-254 | reference definition of the step loop: the first step that stops decides the outcome and ends the trace; with none the status is 0 and the trace is every step's events in order |
| Dispatcher.Dispatch | dspace-api/src/main/java/org/dspace/app/launcher/ScriptLauncher.java:105-255 | reference definition of runOneCommand: an unknown command gives status 1 and nothing else; a known one runs its steps through the step loop |
| Dispatcher.RunOneStep | dspace-api/src/main/java/org/dspace/app/launcher/ScriptLauncher.java:132-250 | one pass of the step loop goes on exactly when RunStep continues, and otherwise returns RunStep's outcome; it appends RunStep's events to the trace |
| Dispatcher.RunCommandSteps | dspace-api/src/main/java/org/dspace/app/launcher/ScriptLauncher.java:128-254 | the step loop returns the pipeline's outcome and appends its trace |
| Dispatcher.RunOneCommand | dspace-api/src/main/java/org/dspace/app/launcher/ScriptLauncher.java:105-255 | the outcome and the new trace are those of Dispatch; the caller's arguments are unchanged; the usage listing is printed iff no command matches |
| Dispatcher.StepEvents | dspace-api/src/main/java/org/dspace/app/launcher/ScriptLauncher.java:137-250 | a step starts a request iff its class resolves and the request service exists. Then main receives the resolved class and the argument vector, and the step goes on iff main returns normally. A step that stops has a non-zero status |
| Dispatcher.UnresolvableClassStops | dspace-api/src/main/java/org/dspace/app/launcher/ScriptLauncher.java:149-159 | an unknown class name stops the command with status 1 and no request started |
| Dispatcher.DsrunIgnoresStepClass | dspace-api/src/main/java/org/dspace/app/launcher/ScriptLauncher.java:137-147 | for dsrun the step's class attribute does not affect the step |
| Dispatcher.AllContinue | dspace-api/src/main/java/org/dspace/app/launcher/ScriptLauncher.java:130-254 | when no step stops, the status is 0 and the trace is every step's events in order |
| Dispatcher.FirstStopEnds | dspace-api/src/main/java/org/dspace/app/launcher/ScriptLauncher.java:130-251 | the first step that stops decides the outcome, and nothing after it appears in the trace |
| Dispatcher.SucceedsIffAllContinue | dspace-api/src/main/java/org/dspace/app/launcher/ScriptLauncher.java:130-254 | the loop returns 0 iff no step stops |
| Dispatcher.PipelineBracketed | dspace-api/src/main/java/org/dspace/app/launcher/ScriptLauncher.java:219-250 | the trace is a run of start/main/end blocks, and only the last may end with a failure; the status is 0 or 1 |
| Dispatcher.AllStepsShaped | dspace-api/src/main/java/org/dspace/app/launcher/ScriptLauncher.java:137-250 | every step leaves nothing, a clean block, or a failed block with a non-zero status |
| Dispatcher.CompletedLayout | dspace-api/src/main/java/org/dspace/app/launcher/ScriptLauncher.java:130-251 | the events of k completed steps are 3k events, step j's block at positions 3j to 3j+2 |
| Dispatcher.DispatchBracketed | dspace-api/src/main/java/org/dspace/app/launcher/ScriptLauncher.java:105-255 | every startRequest is closed by one endRequest around exactly one main, nothing starts after a failure, and the status is 0 or 1 |
| Dispatcher.DispatchSucceeds | dspace-api/src/main/java/org/dspace/app/launcher/ScriptLauncher.java:105-255 | status 0 iff the command is found and each of its steps returns normally |
| Dispatcher.FailureAborts | dspace-api/src/main/java/org/dspace/app/launcher/ScriptLauncher.java:130-251 | when step k is the first to fail, the outcome is its outcome and the trace is the earlier steps' blocks followed by step k's events |
| Dispatcher.AllStepsInvoked | dspace-api/src/main/java/org/dspace/app/launcher/ScriptLauncher.java:130-254 | when every step succeeds, main runs once per step in order with the step's class and argument vector, each in its own request, and the status is 0 |
| Dispatcher.UnknownCommandRunsNothing | dspace-api/src/main/java/org/dspace/app/launcher/ScriptLauncher.java:120-126 | an unknown command returns 1 with no request started |
| Dispatcher.DsrunWithoutClassName | dspace-api/src/main/java/org/dspace/app/launcher/ScriptLauncher.java:137-143 | "dsrun" alone returns 1 with nothing resolved when the command has steps, and 0 when it has none |
| Dispatcher.HelloWorld | dspace-api/src/main/java/org/dspace/app/launcher/ScriptLauncher.java:161-206 | "hello world" runs Greeter with ["--lang=en", "world"] and returns 0 |
| Dispatcher.DiskFullAborts | dspace-api/src/main/java/org/dspace/app/launcher/ScriptLauncher.java:219-250 | a second step failing with "disk full" ends its request with that failure, returns 1, and the third step never runs |
| Dispatcher.DsrunIsCaseSensitive | dspace-api/src/main/java/org/dspace/app/launcher/ScriptLauncher.java:137-182 | "dsrun MyClass x" runs MyClass with ["x"]; "DSRUN MyClass x" runs the step's class with ["MyClass", "x"] |
| AuthorProcessor.StartIndex | dspace-api/src/main/java/org/dspace/importer/external/metadatamapping/processor/AuthorMetadataProcessorService.java:28 | the scan of stripStart stops at the first character it does not strip: everything skipped is strippable, the character at the stop is not |
| AuthorProcessor.StripStart | dspace-api/src/main/java/org/dspace/importer/external/metadatamapping/processor/AuthorMetadataProcessorService.java:28 | the result is a suffix of the input; everything removed is strippable and the result does not start with a strippable character |
| AuthorProcessor.EndIndex | dspace-api/src/main/java/org/dspace/importer/external/metadatamapping/processor/AuthorMetadataProcessorService.java:28-29 | the scan of stripEnd stops at the last character it does not strip: everything skipped is strippable, the character before the stop is not |
| AuthorProcessor.StripEnd | dspace-api/src/main/java/org/dspace/importer/external/metadatamapping/processor/AuthorMetadataProcessorService.java:28-29 | the result is a prefix of the input; everything removed is strippable and the result does not end with a strippable character |
| AuthorProcessor.ProcessMetadataValue | dspace-api/src/main/java/org/dspace/importer/external/metadatamapping/processor/AuthorMetadataProcessorService.java:26-32 | null iff the input is null; never longer than the input; never ends with '.' |
| AuthorProcessor.NeverStartsWithWhitespace | dspace-api/src/main/java/org/dspace/importer/external/metadatamapping/processor/AuthorMetadataProcessorService.java:28 | the result never starts with whitespace |
| AuthorProcessor.IsTrimmedSlice | dspace-api/src/main/java/org/dspace/importer/external/metadatamapping/processor/AuthorMetadataProcessorService.java:27-29 | the result is one contiguous piece of the input. Only whitespace is cut from the front and only whitespace or dots from the back, so interior characters and dots are kept |
| AuthorProcessor.CleanValueUnchanged | dspace-api/src/main/java/org/dspace/importer/external/metadatamapping/processor/AuthorMetadataProcessorService.java:28-29 | a value without surrounding whitespace and without a trailing dot is returned unchanged |
| AuthorProcessor.StripTrailingDots | dspace-api/src/main/java/org/dspace/importer/external/metadatamapping/processor/AuthorMetadataProcessorService.java:29 | stripEnd with "." removes any number of trailing dots down to a non-dot |
| AuthorProcessor.StripsEveryTrailingDot | dspace-api/src/main/java/org/dspace/importer/external/metadatamapping/processor/AuthorMetadataProcessorService.java:20-29 | a clean name followed by any number of dots comes back as the name |
| AuthorProcessor.TwoDotsBothRemoved | dspace-api/src/main/java/org/dspace/importer/external/metadatamapping/processor/AuthorMetadataProcessorService.java:20-29 | "A.." becomes "A": more than the last dot is removed |
| AuthorProcessor.SpaceBeforeDotSurvives | dspace-api/src/main/java/org/dspace/importer/external/metadatamapping/processor/AuthorMetadataProcessorService.java:28-29 | "A ." becomes "A ": whitespace in front of the trailing dots is kept |
| AuthorProcessor.TrailingSpaceStripped | dspace-api/src/main/java/org/dspace/importer/external/metadatamapping/processor/AuthorMetadataProcessorService.java:28 | "A " becomes "A" |
| AuthorProcessor.NotIdempotent | dspace-api/src/main/java/org/dspace/importer/external/metadatamapping/processor/AuthorMetadataProcessorService.java:28-29 | processing "A ." twice gives "A", processing it once does not: the function is not idempotent |

## Left out

- `ScriptLauncher.main` (lines 49-98) is not modelled: kernel initialisation, start and destroy, `System.exit`, and the usage message for an empty argument list. `runOneCommand` is only reached with at least one argument, which is its precondition here.
- `getConfig` (lines 262-288): the path of launcher.xml, the XML unmarshalling, the service-manager lookup and the exit on a load failure are I/O. The catalog is a parameter; `Catalog.Config` keeps the concatenation order.
- Reflection (lines 151-153, 234-235) is a table from class name to the behaviour of `main`. The thread's context class loader, static initialisers, and the other errors `Class.forName` can raise are not modelled.
- The `RequestService` lookup (lines 209-210) is a constant of the kernel. What the service's listeners do on start and end is not modelled.
- The text on standard error, stack traces (lines 123, 141, 157, 247-248) and the message of a failure's cause are not modelled. `display` returns its lines instead of printing them.
- Dispatcher.Kernel.EndRequest: `endRequest` is assumed to return normally. In the code an `endRequest(null)` that throws (line 238) is caught at lines 240-243, which end the same request a second time with `endRequest(e)` and then return 1 or fail at line 247. `Dispatcher.PipelineBracketed` and `Dispatcher.DispatchBracketed` hold only under this assumption.
- Dispatcher.Kernel.StartRequest: `startRequest` (line 219, outside the `try`) is assumed to return normally. If it threw, the exception would leave `runOneCommand` with the request never ended.
- Catalog.Lookup: only ASCII letters are folded. The full Unicode case mapping of `equalsIgnoreCase` is not modelled.
- Listing.SortedListing: keys are ordered by Dafny characters (Unicode scalar values), not by UTF-16 code units; the two orders differ only for characters outside the Basic Multilingual Plane.
- AuthorProcessor.ProcessMetadataValue: U+180E (Mongolian vowel separator) is not whitespace here. Java 8 and earlier count it as whitespace; Java 9 and later do not.
- Null command names, null descriptions and null argument strings are not modelled: every such string is present.
- The launcher works on `Step` values read through the getters (`StepType.View`). Aliasing between a live argument list and a running launcher is not modelled.

