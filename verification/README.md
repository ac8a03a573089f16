# Angular project scaffolder — a Dafny model of `create <projectName>`

The scaffolder is a command-line tool with one command, `create <projectName>`. It asks two
forms of questions. The first covers default dependencies, optional extras and the styling
preprocessor. The second covers the npm registry URL, save-exact, audit and the organisation
scope. The tool then runs the Angular CLI generator, changes into the new project directory,
writes a `.npmrc` file, and installs the extras when some were ticked.

The model treats each form's answers as an input record. Shell commands, the directory change
and the file write become events in an abstract trace. Every property is therefore about
strings, sequences of strings or sequences of events.

Modules, each in its own file:

- `Results`: `Option` (an absent value) and `Result` (`Thrown` stands for a thrown error). `None` means different things in different places. In `ProjectAnswers.additionalDeps` it is JavaScript's `undefined`, for a question that was skipped. In `Run.Environment` it means that form's prompt threw. From a reader such as `Npmrc.ReadLines` or `Commands.ParseGenerateCommand` it means the input does not parse.
- `Text`: `join`/`split` on a one-character separator, boolean interpolation, and ASCII `toLowerCase`.
- `Catalogue`: the constant tables (npm defaults, default and optional dependencies) and the `Styling` enum.
- `Npmrc`: the `.npmrc` line builder, a reader for its output, and the round trips between them.
- `Answers`: the project answers, the conditional checklist question, the final dependency list and the install decision.
- `Commands`: the generator and install command strings, with parsers proving both strings can be read back.
- `Run`: the `create` action as a linear state machine (`Step`, run by the method `Create`), checked against a trace stated directly (`Expected`). The loop invariant of `Create` says the trace so far is always a prefix of `Expected`.

## Model

| member | source | states |
|---|---|---|
| Text.BoolText | index.js:76-77 | A boolean renders as exactly `true` or `false`, and as `true` exactly when it holds |
| Text.BoolTextRoundTrip | index.js:76-77 | The rendered boolean reads back as the same boolean |
| Text.Join | index.js:143 | The model of `parts.join(sep)`: its body puts one separator between neighbours. `Text.Split` is its inverse, as `Text.JoinSplitRoundTrip` and `Text.SplitJoinRoundTrip` state |
| Text.JoinSplitRoundTrip | index.js:143 | Splitting the joined lines on the separator gives back the same lines, when there is at least one and none contains the separator |
| Text.SplitJoinRoundTrip | index.js:149 | Joining the pieces of any string with the separator rebuilds that string |
| Text.Split | index.js:143 | Splitting always yields at least one piece, and no piece contains the separator |
| Text.ToLower | index.js:136 | Lower-casing keeps the length, leaves no upper-case ASCII letter, keeps other characters, and moves each capital to its lower-case letter |
| Catalogue.PackageName | index.js:36-43 | Every checklist entry names a package in the optional catalogue, at its catalogue position |
| Catalogue.ExtraNamed | index.js:36-43 | An identifier names a checklist entry exactly when it is in the optional catalogue, and that entry's name is the identifier |
| Catalogue.PackageNameInjective | index.js:36-43 | Distinct catalogue entries have distinct identifiers, and each identifier leads back to its entry |
| Catalogue.PackageNameHasNoBlank | index.js:36-43 | No catalogue identifier contains a space or a line break |
| Catalogue.StyleFlag | index.js:120-136 | The `--style` value for each of the four list choices. `Catalogue.StyleFlagIsLowerCase` proves it is `styling.toLowerCase()` of the choice's label |
| Catalogue.StyleFlagIsLowerCase | index.js:136 | The `--style` value for each of the four list choices (css, scss, sass, less) is exactly the choice's label lower-cased |
| Npmrc.Lines | index.js:74-87 | The `.npmrc` line builder. Its body is the seven-element literal plus the scope push. `Npmrc.LinesLayout` states its layout, and `Npmrc.ReadLines` with `Npmrc.LinesRoundTrip` is its inverse |
| Npmrc.LinesLayout | index.js:74-87 | The file has 7 lines with an empty scope and 8 otherwise: registry, save-exact, audit, then four constant lines, then `@scope:registry=url` with the same URL as line 1 |
| Npmrc.ReadLines | index.js:74-87 | Any line list the reader accepts is exactly what the builder produces for the answers it returns |
| Npmrc.LinesRoundTrip | index.js:74-87 | Reading the built lines back recovers every registry answer, scope included |
| Npmrc.LinesInjective | index.js:74-87 | Different registry answers produce different line lists |
| Npmrc.Content | index.js:143 | The written file content: the built lines joined with a newline. `Npmrc.ContentRoundTrip` reads it back as the answers that produced it |
| Npmrc.ContentRoundTrip | index.js:143 | The newline-joined file content reads back as the answers that produced it, when neither URL nor scope contains a line break |
| Npmrc.FixedLinesIndependent | index.js:78-81 | Lines 4-7 are the same for every input, and their values agree with the defaults table |
| Npmrc.ScopeAppendsOneLine | index.js:84-87 | A non-empty scope appends exactly one last line, `@scope:registry=url`, and leaves the first seven lines as they are without a scope |
| Npmrc.DefaultRegistryLines | index.js:47-82 | Accepting every registry default yields exactly the seven default lines |
| Answers.Names | index.js:110-113 | The checklist answer: one identifier per ticked entry, that entry's catalogue identifier, in the order reported |
| Answers.WellFormed | index.js:109-115 | The answers the question flow can produce. `Answers.AskIsWellFormed` and `Answers.WellFormedIsAsked` prove that these are exactly the answers `Ask` yields |
| Answers.Ask | index.js:102-122 | The extras answer is present exactly when the defaults were declined, and it lists the ticked catalogue entries' identifiers |
| Answers.AskIsWellFormed | index.js:109-115 | The checklist's ticks are ignored when the defaults are accepted, and every extra the flow yields is in the optional catalogue |
| Answers.WellFormedIsAsked | index.js:102-122 | Every well-formed answer set is what the question flow yields for some choice of ticks |
| Answers.Dependencies | index.js:124-127 | Composition throws exactly when the defaults were declined and the extras answer is absent |
| Answers.DependenciesLayout | index.js:124-127 | The list is the defaults alone when they are accepted, and otherwise the defaults then the extras in the given order; the length and the multiset add up, so nothing is sorted or de-duplicated |
| Answers.WellFormedDependencies | index.js:113-127 | Answers from the question flow never make the composition throw |
| Answers.InstallPlan | index.js:147 | When the installer runs, its packages are exactly the extras answer, and there is at least one |
| Answers.InstallPlanIff | index.js:147 | The installer runs if and only if the defaults were declined and at least one extra was ticked; the guard throws exactly when the composition does |
| Commands.GenerateCommand | index.js:136 | The generator command string. Its body is the template literal of the source. `Commands.GenerateCommandShape` states its shape, and `Commands.ParseGenerateCommand` with `Commands.GenerateRoundTrip` is its inverse |
| Commands.GenerateCommandShape | index.js:136 | The command starts with `npx @angular/cli@latest new `, ends with ` --routing=true`, and has the name then ` --style=<flag>` between them |
| Commands.ParseGenerateCommand | index.js:136 | Any command the parser accepts is exactly the generator command for the name and styling it returns |
| Commands.StyleOptionsDistinct | index.js:120 | No style option is a suffix of another one |
| Commands.GenerateRoundTrip | index.js:136 | The generator command reads back as the project name and styling that built it |
| Commands.GenerateInjective | index.js:136 | Different names or stylings give different generator commands |
| Commands.InstallCommand | index.js:149 | The install command string: `npm install ` then the extras space-joined. `Commands.ParseInstallCommand` with `Commands.InstallRoundTrip` is its inverse |
| Commands.ParseInstallCommand | index.js:149 | Any command the parser accepts is the install command for the non-empty package list it returns |
| Commands.InstallRoundTrip | index.js:149 | The install command reads back as the same packages in the same order, when there is at least one and none contains a space |
| Commands.CommandsDistinct | index.js:136-149 | The generator command never starts with `npm install `, so the two commands cannot be confused |
| Commands.InstallExample | index.js:149 | Ticking bootstrap then tailwindcss gives `npm install bootstrap tailwindcss` |
| Run.Expected | index.js:99-157 | The reference trace, stated directly and never empty. A thrown project prompt gives the exit alone. A throwing composition or registry prompt gives the first answer then the exit. A failed write cuts the run after the directory change. Otherwise every effect runs, then exit 0. `Run.Create` is proved to produce it |
| Run.Step | index.js:99-157 | Every transition moves strictly forward; a thrown error emits nothing before the failure stage; the run stops only from the success or failure stage |
| Run.StepFollowsExpected | index.js:99-157 | Every transition from a stage consistent with the answers emits exactly the next stretch of the directly stated trace, and leads to a consistent stage |
| Run.Create | index.js:99-157 | Running the state machine to the end yields exactly the directly stated trace, for every environment |
| Run.ExitStatus | index.js:152-157 | Every run ends with exactly one exit event. Its status is 0 exactly when both forms were answered, composition did not throw and the write succeeded; otherwise it is 1 |
| Run.FailureSkipsLaterSteps | index.js:100-157 | Every trace, including those where a prompt threw, is the successful run's effects in the fixed order, cut off at the failing step and followed by the exit. It is cut at 0 when the project prompt throws, at 1 when composition or the registry prompt throws, and at 4 when the write fails; it exits 0 exactly when nothing was cut |
| Run.InstallIff | index.js:147-150 | The install command runs if and only if the write succeeded, the defaults were declined and an extra was ticked. It comes right after the write, with the extras space-joined in order |
| Run.DefaultScenario | index.js:99-157 | `create demo-app` with every default accepted runs the CSS generator, writes the seven default lines, skips the install and exits 0 |
| Run.WriteFailureScenario | index.js:142-157 | When the configuration write fails, the installer never runs and the run exits 1 right after the directory change |

## Left out

- The prompt engine (inquirer) is not modelled. Each form's answers are an input, and `None` means that form's prompt threw. The question texts and the display of defaults are not modelled either.
- The checklist answer is taken in the order the prompt engine reports it. The model makes no claim about which order the engine uses.
- The ticks are a sequence, so the model also admits a repeated tick, such as `[Bootstrap, Bootstrap]`, which a checkbox prompt over six distinct choices never reports. This only widens the inputs: `Answers.WellFormed` and `Answers.WellFormedIsAsked` range over these extra answers too, and every universal statement still holds for the answers the prompt can give.
- `shell.exec` and `shell.cd` appear only as trace events. The source never checks their exit codes, and by default neither call throws, so the model has no failure input for them.
- The file write (fs-extra) is an event holding the file name and content. Whether it succeeds is an input. The path join with `process.cwd()` is not modelled.
- A failed `shell.cd` does not throw and leaves `process.cwd()` unchanged, so the `.npmrc` write can still succeed after a failed scaffold. The model therefore treats the write's success as an input independent of the generator command.
- Commander argument parsing, the version and description registration, and `program.parse` are not modelled. They are library plumbing.
- The `__filename`/`__dirname` setup and the console logging are not modelled. Neither affects what the tool does.
- The final `dependencies` list is computed but never used after it is built. The run evaluates it only because building it can throw.
- The normal end of a run appears as an `Exit(0)` event, standing for the process ending without an error.
- Text.ToLower: lower-cases ASCII only, because `toLowerCase` only ever sees the four list labels. Full Unicode case mapping is not modelled.
- Npmrc.ContentRoundTrip: assumes the URL and scope contain no line break. A line break there would add lines to the file, and a single-line text prompt cannot produce one.
