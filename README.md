# Automated Course Content Generator: course assembly and launcher, modelled in Dafny

The application asks a hosted language model for a course outline, has the model turn
that outline into a module-to-lessons JSON object, then writes every lesson and one quiz
per module and stitches them into one markdown course document. A small launcher picks
the server port from the command line and builds the Streamlit command.

This project models the deterministic part of that:

- `Wrappers.dfy`: `Option` (Python's `None`) and `Result`.
- `Fences.dfy`: removing markdown code fences from the structure parser's response
  with two `str.replace` calls, and turning the response into a structure. `str.replace`
  is modelled exactly: left to right, non-overlapping. `json.loads` is a parameter.
- `Course.dfy`: the assembly loop. Specification functions (`Document`, `Section`,
  `LessonsText`, `Requests`, `TotalItems`) say what the document, the completion calls and
  the unit count are. The imperative method `GenerateCourse` is the source's outer loop
  over modules. `WriteModule` is that loop's body: the inner loop over lessons, the quiz,
  the module buffer and the counter. Both are proved equal to the specification
  functions. Every completion call is returned paired with the counter value that the
  progress bar shows right after it. Lemmas state the layout, ordering, placeholder and
  counting properties.
- `Launcher.dfy`: the `--port` scan with its early exit (`ChoosePort`), a declarative
  description of the chosen port (`SelectedPort`) with lemmas about it, the command list,
  and `LaunchCommand`, which joins the two as `main` does.

The completion service `get_completion(prompt, model)` is an oracle `Env.complete` from a
`Request(prompt, model)` to `Option<string>`. The prompt builder
`generate_coursify_prompt` and the quiz instruction text `QUIZZY_PROMPT` are fields of
`Env`, because their definitions are not part of this model. The model names are kept: lessons
use `gpt-4-turbo-preview` and quizzes the default `gpt-3.5-turbo`.

Three details of the code that the model keeps:

- The code does not trim whitespace after fence removal. It passes the text straight to
  `json.loads`.
- A failed quiz gets its own placeholder, "Error generating quiz.", not the lesson
  placeholder "Error generating content.".
- An empty answer counts as failed (`if not x`), just like `None`.

## Model

| member | source | states |
|---|---|---|
| `Fences.RemoveAll` | app.py:140 | `str.replace(pat, "")` never lengthens the text and leaves it unchanged when the pattern's first character does not occur in it |
| `Fences.StripFences` | app.py:140 | after both replacements the response holds no "```" at all, and a response without any backtick passes through unchanged |
| `Fences.NoFenceAfterRemoval` | app.py:140 | removing "```" cannot leave or create a "```", even where surviving backticks meet across a removed fence |
| `Fences.FencedPayload` | app.py:139-140 | a backtick-free payload wrapped in "```json" and "```" comes out as exactly the payload |
| `Fences.ExtractStructure` | app.py:138-144 | a missing response is an error; otherwise the decoder is applied to the fence-stripped text, and its failure is an error (the model keeps the rejected text in it; the source shows only the exception message) |
| `Fences.FencedResponseSameStructure` | app.py:139-141 | a fenced response yields the same structure, or the same error, as the bare payload |
| `Course.Filled` | app.py:162 | a missing or empty completion becomes exactly the placeholder; any other answer is kept verbatim; the result is never empty |
| `Course.GenerateCourse` | app.py:146-186 | the document is `Document` of the outline; the counter starts at 0 and ends at `total_items`; the k-th completion call, in issue order, is the k-th of `Requests`, and the progress bar shows k+1 right after it, so each lesson and each quiz adds exactly one and the counter never exceeds the total |
| `Course.WriteModule` | app.py:155-184 | one module's text is exactly its `Section`: header, lesson bodies each followed by the rule, and the quiz section. The counter rises by the lesson count plus one. Each of the module's calls (lessons in order, then the quiz) is followed by one progress update |
| `Course.UnitCount` | app.py:150 | `total_items` (lesson counts summed, plus one per module) equals the number of lesson and quiz completion calls |
| `Course.TotalItemsConcat` | app.py:150 | `total_items` of an outline is the sum over its parts |
| `Course.DocumentConcat` | app.py:186 | the document of consecutive parts of the outline is their documents concatenated: modules in outline order, each section followed by a blank line and nothing else |
| `Course.LessonsTextConcat` | app.py:158-164 | the lesson text of consecutive lesson lists is their texts concatenated |
| `Course.LessonsTextAt` | app.py:158-164 | lesson i's body and rule sit right after those of the lessons before it and right before those of the lessons after it |
| `Course.FailedLessonKeepsGoing` | app.py:161-164 | a failed or empty lesson completion puts "Error generating content." plus the rule in that lesson's place, and every other lesson is still written |
| `Course.FailedQuiz` | app.py:175-178 | a failed or empty quiz completion puts exactly "Error generating quiz." in the quiz section, after the module's header and lessons |
| `Course.QuizSeesEveryLesson` | app.py:173-175 | the quiz prompt contains the module header and every lesson entry of the module |
| `Course.DocumentEmpty` | app.py:186-189 | the document is empty exactly when the outline has no module, which is when no PDF is generated |
| `Course.SingleLessonExample` | app.py:154-186 | one module with one answered lesson gives "# M", the lesson body, the rule, the "## Quiz" section and the closing blank lines, in that order |
| `Launcher.Args` | run_app.py:10 | the scanned arguments are everything after the program name |
| `Launcher.ChoosePort` | run_app.py:7-14 | the port is the value after the first `--port` that has one, else "3000"; the program name is never looked at |
| `Launcher.SelectedPortUnique` | run_app.py:11-14 | the scan's outcome is determined by the arguments |
| `Launcher.NoFlagMeansDefault` | run_app.py:7 | without `--port` among the arguments the port is "3000" |
| `Launcher.TrailingFlagIgnored` | run_app.py:12 | a final `--port` with nothing after it does not change the port, unless the element before it is itself `--port` (then the final one is that flag's value) |
| `Launcher.FirstFlagWins` | run_app.py:11-14 | once a `--port` with a value is the first such, the arguments after it, later `--port` flags included, do not change the port |
| `Launcher.StreamlitCommand` | run_app.py:17-23 | the command has 13 elements, starts with the interpreter, has "run" then "app.py", and "--server.port" directly followed by the chosen port |
| `Launcher.LaunchCommand` | run_app.py:5-23 | the command `main` builds is the Streamlit command for the port that the scan of the arguments selects |

## Left out

- Streamlit widgets, session state, the Reset button and `st.stop`/`st.rerun` control flow (app.py:17-43, 59-130): user interface.
- The outline request (app.py:99-116): a single completion call built from `TABLER_PROMPT` and the form fields. Its result is stored, shown and embedded in the structure request; the model starts from the structure request's response.
- The structure request (app.py:136-137): the prompt `DICTATOR_PROMPT` plus the outline, sent to `gpt-3.5-turbo`. `ExtractStructure` takes its response as a parameter.
- The OpenAI request inside `get_completion` (app.py:45-55): network I/O. It is the oracle `Env.complete`. The error banner it shows is not modelled.
- The oracle is a function of the request. The model therefore does not capture a service that answers the same prompt differently on two calls.
- `json.loads` (app.py:141): a foreign parser, taken as the `decode` parameter of `ExtractStructure`. The parsed value is assumed to be a mapping from module names to lists of lesson titles. The code checks no schema, and the model does not capture other JSON shapes. The order of modules is the mapping's iteration order.
- The prompt texts and builders from `prompts/` (app.py:11-14): these files are not part of this model. `generate_coursify_prompt` and `QUIZZY_PROMPT` are the fields `coursify` and `quizzy` of `Env`. `TABLER_PROMPT` and `DICTATOR_PROMPT` belong to the two requests above and do not appear in the model.
- The progress-bar fraction `completed_items / total_items` (app.py:170, 184): floating point. The integer counter values are modelled instead.
- Progress updates are not performed as effects during the run. They are returned as a list that pairs each completion call with the counter value shown right after it.
- Displaying each lesson and quiz in an expander (app.py:166-167, 180-181): user interface.
- PDF generation, base64 encoding and the download button (app.py:188-202), and all of utils.py: foreign libraries and file I/O. Only the condition that guards them is modelled, by `DocumentEmpty`.
- The message printed by the launcher and running the command with `subprocess.run` (run_app.py:25-34): process I/O. `sys.executable` is a parameter.
