/** Course assembly (app.py, lines 146-186): for every module of the parsed outline, in
    order, each lesson is written by the completion service and appended to the module's
    text with a horizontal rule, then a quiz is written from that text; the finished
    module is appended to the course document, and a counter drives the progress bar. */
module Course {
  import opened Wrappers
  import Fences

  /** The model names the pipeline passes to `get_completion`. */
  datatype ModelName = Gpt35Turbo | Gpt4TurboPreview

  /** One call `get_completion(prompt, model)`. */
  datatype Request = Request(prompt: string, model: ModelName)

  /** The parsed outline: module names with their ordered lesson titles, in the
      dictionary's iteration order. */
  type Structure = seq<(string, seq<string>)>

  /** What the pipeline consults but does not own. `complete` is the completion service
      (`None` when the call failed); `coursify` builds a lesson prompt from the lesson,
      the module and the course name; `quizzy` is the fixed quiz instruction text. */
  datatype Env = Env(
    complete: Request -> Option<string>,
    coursify: (string, string, string) -> string,
    quizzy: string,
    courseName: string)

  const LessonPlaceholder: string := "Error generating content."
  const QuizPlaceholder: string := "Error generating quiz."
  /** What follows every lesson body: a markdown horizontal rule. */
  const Rule: string := "\n\n---\n\n"
  /** What separates the quiz instructions from the module text in the quiz prompt. */
  const QuizGlue: string := "\n\nModule Content:\n"

  /** `x if x else placeholder`: a missing or empty answer is replaced, any other kept. */
  function Filled(answer: Option<string>, placeholder: string): (body: string)
    ensures answer.Some? && answer.value != "" ==> body == answer.value
    ensures answer.None? || answer.value == "" ==> body == placeholder
    ensures placeholder != "" ==> body != ""
  {
    if answer.None? || answer.value == "" then placeholder else answer.value
  }

  /** Number of lessons over all modules. */
  function SumLessons(s: Structure): (n: nat)
    decreases |s|
  {
    if s == [] then 0 else SumLessons(s[..|s| - 1]) + |s[|s| - 1].1|
  }

  /** `total_items`: one unit per lesson plus one quiz unit per module. */
  function TotalItems(s: Structure): (n: nat)
  {
    SumLessons(s) + |s|
  }

  function Header(moduleName: string): (header: string)
  {
    "# " + moduleName + "\n\n"
  }

  function LessonRequest(env: Env, moduleName: string, lesson: string): (request: Request)
  {
    Request(env.coursify(lesson, moduleName, env.courseName), Gpt4TurboPreview)
  }

  /** A lesson's body followed by the rule. */
  function LessonEntry(env: Env, moduleName: string, lesson: string): (entry: string)
  {
    Filled(env.complete(LessonRequest(env, moduleName, lesson)), LessonPlaceholder) + Rule
  }

  /** The entries of the given lessons, in list order. */
  function LessonsText(env: Env, moduleName: string, lessons: seq<string>): (text: string)
    decreases |lessons|
  {
    if lessons == [] then ""
    else LessonsText(env, moduleName, lessons[..|lessons| - 1]) + LessonEntry(env, moduleName, lessons[|lessons| - 1])
  }

  /** The completion calls of the given lessons, in list order. */
  function LessonRequests(env: Env, moduleName: string, lessons: seq<string>): (requests: seq<Request>)
    decreases |lessons|
  {
    if lessons == [] then []
    else LessonRequests(env, moduleName, lessons[..|lessons| - 1]) + [LessonRequest(env, moduleName, lessons[|lessons| - 1])]
  }

  /** The module text once all its lessons are in: what the quiz is written from. */
  function QuizContext(env: Env, moduleName: string, lessons: seq<string>): (context: string)
  {
    Header(moduleName) + LessonsText(env, moduleName, lessons)
  }

  /** The quiz call, on the default model. */
  function QuizRequest(env: Env, context: string): (request: Request)
  {
    Request(env.quizzy + QuizGlue + context, Gpt35Turbo)
  }

  /** A finished module: header, lesson entries, quiz section. */
  function Section(env: Env, moduleName: string, lessons: seq<string>): (section: string)
  {
    var context := QuizContext(env, moduleName, lessons);
    context + "## Quiz\n" + Filled(env.complete(QuizRequest(env, context)), QuizPlaceholder) + "\n\n"
  }

  /** The course document: each section followed by a blank line, in module order. */
  function Document(env: Env, s: Structure): (document: string)
    decreases |s|
  {
    if s == [] then ""
    else Document(env, s[..|s| - 1]) + Section(env, s[|s| - 1].0, s[|s| - 1].1) + "\n\n"
  }

  /** The completion calls of one module: its lessons, then its quiz. */
  function ModuleRequests(env: Env, moduleName: string, lessons: seq<string>): (requests: seq<Request>)
  {
    LessonRequests(env, moduleName, lessons) + [QuizRequest(env, QuizContext(env, moduleName, lessons))]
  }

  /** Every completion call of the run, in the order it is issued. */
  function Requests(env: Env, s: Structure): (requests: seq<Request>)
    decreases |s|
  {
    if s == [] then []
    else
      Requests(env, s[..|s| - 1]) + ModuleRequests(env, s[|s| - 1].0, s[|s| - 1].1)
  }

  /** `units[k]` pairs the k-th completion call with the counter value shown on the
      progress bar right after it, when `start` units were done before the first call:
      every call is followed by exactly one update, and the counter rises by one per call. */
  predicate ReportedFrom(units: seq<(Request, nat)>, calls: seq<Request>, start: nat)
  {
    |units| == |calls| && forall k :: 0 <= k < |units| ==> units[k] == (calls[k], start + k + 1)
  }

  /** One more lesson extends the module text and the call list by that lesson alone. */
  lemma LessonStep(env: Env, moduleName: string, lessons: seq<string>, l: nat)
    requires l < |lessons|
    ensures QuizContext(env, moduleName, lessons[..l + 1])
      == QuizContext(env, moduleName, lessons[..l]) + LessonEntry(env, moduleName, lessons[l])
    ensures LessonRequests(env, moduleName, lessons[..l + 1])
      == LessonRequests(env, moduleName, lessons[..l]) + [LessonRequest(env, moduleName, lessons[l])]
  {
    assert lessons[..l + 1][..l] == lessons[..l];
  }

  /** One more module extends the document, the unit count and the call list by that
      module alone. */
  lemma ModuleStep(env: Env, s: Structure, m: nat)
    requires m < |s|
    ensures Document(env, s[..m + 1]) == Document(env, s[..m]) + Section(env, s[m].0, s[m].1) + "\n\n"
    ensures TotalItems(s[..m + 1]) == TotalItems(s[..m]) + |s[m].1| + 1
    ensures Requests(env, s[..m + 1]) == Requests(env, s[..m]) + ModuleRequests(env, s[m].0, s[m].1)
  {
    assert s[..m + 1][..m] == s[..m];
  }

  /** A call followed by one more progress update keeps the pairing. */
  lemma ReportStep(units: seq<(Request, nat)>, calls: seq<Request>, start: nat, r: Request)
    requires ReportedFrom(units, calls, start)
    ensures ReportedFrom(units + [(r, start + |units| + 1)], calls + [r], start)
  {
  }

  /** Reports of consecutive stretches of calls join up. */
  lemma ReportConcat(u: seq<(Request, nat)>, c: seq<Request>, v: seq<(Request, nat)>, d: seq<Request>, start: nat)
    requires ReportedFrom(u, c, start) && ReportedFrom(v, d, start + |u|)
    ensures ReportedFrom(u + v, c + d, start)
  {
  }

  /** One module of the outer loop (app.py lines 155-186): its lessons, then its quiz.
      `completed` is the counter on entry; the result is the module's text and, for each
      of its calls, the call and the counter value shown right after it. */
  method WriteModule(env: Env, moduleName: string, lessons: seq<string>, completed: nat)
    returns (content: string, done: nat, units: seq<(Request, nat)>)
    ensures content == Section(env, moduleName, lessons)
    ensures done == completed + |lessons| + 1
    ensures |units| == |lessons| + 1
    ensures ReportedFrom(units, ModuleRequests(env, moduleName, lessons), completed)
  {
    content := "# " + moduleName + "\n\n";
    done := completed;
    units := [];
    var l := 0;
    while l < |lessons|
      invariant 0 <= l <= |lessons|
      invariant content == QuizContext(env, moduleName, lessons[..l])
      invariant done == completed + l
      invariant |units| == l
      invariant ReportedFrom(units, LessonRequests(env, moduleName, lessons[..l]), completed)
    {
      var request := Request(env.coursify(lessons[l], moduleName, env.courseName), Gpt4TurboPreview);
      var lessonContent := env.complete(request);
      var body := if lessonContent.None? || lessonContent.value == "" then LessonPlaceholder else lessonContent.value;
      LessonStep(env, moduleName, lessons, l);
      content := content + body + Rule;
      done := done + 1;
      ReportStep(units, LessonRequests(env, moduleName, lessons[..l]), completed, request);
      units := units + [(request, done)];
      l := l + 1;
    }
    assert lessons[..l] == lessons;
    var quizRequest := Request(env.quizzy + QuizGlue + content, Gpt35Turbo);
    var quizContent := env.complete(quizRequest);
    var quiz := if quizContent.None? || quizContent.value == "" then QuizPlaceholder else quizContent.value;
    content := content + "## Quiz\n" + quiz + "\n\n";
    done := done + 1;
    ReportStep(units, LessonRequests(env, moduleName, lessons), completed, quizRequest);
    units := units + [(quizRequest, done)];
  }

  /** The pipeline of app.py lines 146-186. Besides the document it returns the final
      counter, `total_items`, and for every completion call, in issue order, the call and
      the counter value the progress bar shows once that unit is done. The bar starts at
      0 (line 151); the counter is raised and shown after each lesson (lines 169-170) and
      after each quiz (lines 183-184). */
  method GenerateCourse(env: Env, structure: Structure)
    returns (document: string, completed: nat, total: nat, units: seq<(Request, nat)>)
    ensures document == Document(env, structure)
    ensures total == TotalItems(structure)
    ensures completed == total
    ensures |units| == total
    ensures ReportedFrom(units, Requests(env, structure), 0)
  {
    document := "";
    total := TotalItems(structure);
    completed := 0;
    units := [];
    var m := 0;
    while m < |structure|
      invariant 0 <= m <= |structure|
      invariant document == Document(env, structure[..m])
      invariant completed == TotalItems(structure[..m])
      invariant |units| == completed
      invariant ReportedFrom(units, Requests(env, structure[..m]), 0)
    {
      var (moduleName, lessons) := structure[m];
      var content, done, moduleUnits := WriteModule(env, moduleName, lessons, completed);
      ReportConcat(units, Requests(env, structure[..m]), moduleUnits, ModuleRequests(env, moduleName, lessons), 0);
      ModuleStep(env, structure, m);
      units := units + moduleUnits;
      completed := done;
      document := document + content + "\n\n";
      m := m + 1;
    }
    assert structure[..m] == structure;
  }

  /** One lesson, one call. */
  lemma {:induction false} LessonRequestsCount(env: Env, moduleName: string, lessons: seq<string>)
    ensures |LessonRequests(env, moduleName, lessons)| == |lessons|
    decreases |lessons|
  {
    if lessons != [] {
      LessonRequestsCount(env, moduleName, lessons[..|lessons| - 1]);
    }
  }

  /** `total_items` is exactly the number of completion calls the lessons and quizzes
      issue: one per lesson and one per module. */
  lemma {:induction false} UnitCount(env: Env, s: Structure)
    ensures |Requests(env, s)| == TotalItems(s)
    decreases |s|
  {
    if s != [] {
      UnitCount(env, s[..|s| - 1]);
      LessonRequestsCount(env, s[|s| - 1].0, s[|s| - 1].1);
    }
  }

  /** `total_items` adds up over consecutive parts of the outline. */
  lemma {:induction false} TotalItemsConcat(a: Structure, b: Structure)
    ensures TotalItems(a + b) == TotalItems(a) + TotalItems(b)
    decreases |b|
  {
    if b == [] {
      assert a + b == a;
    } else {
      assert (a + b)[..|a + b| - 1] == a + b[..|b| - 1];
      TotalItemsConcat(a, b[..|b| - 1]);
    }
  }

  /** The document of consecutive parts of the outline is the concatenation of their
      documents: modules appear in outline order and nothing is inserted between them. */
  lemma {:induction false} DocumentConcat(env: Env, a: Structure, b: Structure)
    ensures Document(env, a + b) == Document(env, a) + Document(env, b)
    decreases |b|
  {
    if b == [] {
      assert a + b == a;
    } else {
      assert (a + b)[..|a + b| - 1] == a + b[..|b| - 1];
      DocumentConcat(env, a, b[..|b| - 1]);
    }
  }

  /** The lesson text of consecutive lesson lists is the concatenation of their texts. */
  lemma {:induction false} LessonsTextConcat(env: Env, moduleName: string, a: seq<string>, b: seq<string>)
    ensures LessonsText(env, moduleName, a + b) == LessonsText(env, moduleName, a) + LessonsText(env, moduleName, b)
    decreases |b|
  {
    if b == [] {
      assert a + b == a;
    } else {
      assert (a + b)[..|a + b| - 1] == a + b[..|b| - 1];
      LessonsTextConcat(env, moduleName, a, b[..|b| - 1]);
    }
  }

  /** Lesson `i`'s entry sits between the entries of the lessons before it and those
      after it. */
  lemma LessonsTextAt(env: Env, moduleName: string, lessons: seq<string>, i: nat)
    requires i < |lessons|
    ensures LessonsText(env, moduleName, lessons)
      == LessonsText(env, moduleName, lessons[..i]) + LessonEntry(env, moduleName, lessons[i])
         + LessonsText(env, moduleName, lessons[i + 1..])
  {
    var before, one, after := lessons[..i], [lessons[i]], lessons[i + 1..];
    assert lessons == before + (one + after);
    LessonsTextConcat(env, moduleName, before, one + after);
    LessonsTextConcat(env, moduleName, one, after);
    assert one[..0] == [];
    assert LessonsText(env, moduleName, one) == LessonEntry(env, moduleName, lessons[i]);
  }

  /** A lesson whose completion failed or came back empty gets the placeholder, and the
      lessons around it are written as usual: one failure does not stop the module. */
  lemma FailedLessonKeepsGoing(env: Env, moduleName: string, lessons: seq<string>, i: nat)
    requires i < |lessons|
    requires var answer := env.complete(LessonRequest(env, moduleName, lessons[i]));
      answer.None? || answer.value == ""
    ensures LessonsText(env, moduleName, lessons)
      == LessonsText(env, moduleName, lessons[..i]) + LessonPlaceholder + Rule
         + LessonsText(env, moduleName, lessons[i + 1..])
  {
    LessonsTextAt(env, moduleName, lessons, i);
  }

  /** A quiz whose completion failed or came back empty is replaced by exactly the quiz
      placeholder; the rest of the section is as usual. */
  lemma FailedQuiz(env: Env, moduleName: string, lessons: seq<string>)
    requires var answer := env.complete(QuizRequest(env, QuizContext(env, moduleName, lessons)));
      answer.None? || answer.value == ""
    ensures Section(env, moduleName, lessons)
      == QuizContext(env, moduleName, lessons) + "## Quiz\n" + "Error generating quiz." + "\n\n"
  {
  }

  /** The quiz prompt carries the module header and every lesson entry of the module. */
  lemma QuizSeesEveryLesson(env: Env, moduleName: string, lessons: seq<string>, i: nat)
    requires i < |lessons|
    ensures Fences.Occurs(QuizRequest(env, QuizContext(env, moduleName, lessons)).prompt, Header(moduleName))
    ensures Fences.Occurs(QuizRequest(env, QuizContext(env, moduleName, lessons)).prompt, LessonEntry(env, moduleName, lessons[i]))
  {
    var prompt := QuizRequest(env, QuizContext(env, moduleName, lessons)).prompt;
    var before := env.quizzy + QuizGlue;
    var entry := LessonEntry(env, moduleName, lessons[i]);
    var at := |before| + |Header(moduleName)| + |LessonsText(env, moduleName, lessons[..i])|;
    LessonsTextAt(env, moduleName, lessons, i);
    assert prompt == before + Header(moduleName) + LessonsText(env, moduleName, lessons[..i]) + entry
      + LessonsText(env, moduleName, lessons[i + 1..]);
    assert Fences.OccursAt(prompt, Header(moduleName), |before|);
    assert Fences.OccursAt(prompt, entry, at);
  }

  /** The document is empty exactly when the outline has no module, which is when the
      PDF step (app.py line 189) is skipped. */
  lemma DocumentEmpty(env: Env, s: Structure)
    ensures Document(env, s) == "" <==> s == []
  {
  }

  /** One module with one lesson and a service that answers both calls: a single header,
      the lesson body, the rule and the quiz section. */
  lemma SingleLessonExample(env: Env, moduleName: string, lesson: string, body: string, quiz: string)
    requires body != "" && quiz != ""
    requires env.complete(LessonRequest(env, moduleName, lesson)) == Some(body)
    requires env.complete(QuizRequest(env, "# " + moduleName + "\n\n" + body + Rule)) == Some(quiz)
    ensures Document(env, [(moduleName, [lesson])])
      == "# " + moduleName + "\n\n" + body + "\n\n---\n\n" + "## Quiz\n" + quiz + "\n\n" + "\n\n"
  {
    assert [(moduleName, [lesson])][..0] == [];
    assert [lesson][..0] == [];
    var context := "# " + moduleName + "\n\n" + body + Rule;
    assert LessonsText(env, moduleName, [lesson]) == body + Rule;
    assert QuizContext(env, moduleName, [lesson]) == context;
    assert Section(env, moduleName, [lesson]) == context + "## Quiz\n" + quiz + "\n\n";
  }
}
