/**
 * `ResponseFormatter` (api_response_formatter.py): the reasoning result
 * dictionary turned into the front-end response, a Markdown text and a
 * REST envelope. Python's `TypeError`, `KeyError` and `AttributeError` on an
 * unexpected shape are the `Failure` of a `Result`.
 */
module ResponseFormatter {
  import opened Wrappers
  import opened Text
  import opened JsonValues

  /** Python's iteration over a decoded value; numbers, booleans and `None` are not iterable. */
  function Iterate(j: Json): (r: Option<seq<Json>>)
    ensures j.JArr? ==> r == Some(j.items)
    ensures r.None? <==> !(j.JArr? || j.JStr? || j.JObj?)
  {
    match j
    case JArr(items) => Some(items)
    case JStr(s) => Some(seq(|s|, i requires 0 <= i < |s| => JStr([s[i]])))
    case JObj(fields) => Some(seq(|fields|, i requires 0 <= i < |fields| => JStr(fields[i].0)))
    case _ => None
  }

  /** `step[key]` for a step that must be an object holding `key`. */
  function StepField(step: Json, key: string): (r: Result<Json>)
    ensures r.Success? <==> step.JObj? && HasKey(step.fields, key)
    ensures r.Success? ==> Some(r.value) == Lookup(step.fields, key)
  {
    if step.JObj? then
      match Lookup(step.fields, key)
      case Some(v) => Success(v)
      case None => Failure("KeyError: " + key)
    else Failure("TypeError: step is not a dictionary")
  }

  /** A step generated from a plain step name, numbered `n`. */
  function GeneratedStep(n: nat, name: Json): Json
  {
    JObj([("step_number", Int(n)), ("step_name", name), ("description", name)])
  }

  /** `enumerate(steps, 1)` turned into step objects. */
  function GenerateSteps(items: seq<Json>): (steps: seq<Json>)
    ensures |steps| == |items|
    ensures forall i :: 0 <= i < |items| ==> steps[i] == GeneratedStep(i + 1, items[i])
  {
    seq(|items|, i requires 0 <= i < |items| => GeneratedStep(i + 1, items[i]))
  }

  /** A step `step_number` and `step_name` can be read from. */
  predicate WellFormedStep(step: Json)
  {
    step.JObj? && HasKey(step.fields, "step_number") && HasKey(step.fields, "step_name")
  }

  /** Every well-formed step gives one line; the first malformed step makes the whole rendering raise. */
  function StepLines(steps: seq<Json>, line: (Json, Json) -> string): (r: Result<seq<string>>)
    ensures r.Success? ==> |r.value| == |steps|
  {
    if steps == [] then Success([])
    else
      match StepField(steps[0], "step_number")
      case Failure(e) => Failure(e)
      case Success(number) =>
        match StepField(steps[0], "step_name")
        case Failure(e) => Failure(e)
        case Success(name) =>
          match StepLines(steps[1..], line)
          case Failure(e) => Failure(e)
          case Success(rest) => Success([line(number, name)] + rest)
  }

  /** Rendering succeeds exactly when every step is well formed. */
  lemma {:induction false} StepLinesSucceed(steps: seq<Json>, line: (Json, Json) -> string)
    ensures StepLines(steps, line).Success? <==> forall i :: 0 <= i < |steps| ==> WellFormedStep(steps[i])
  {
    if steps != [] {
      StepLinesSucceed(steps[1..], line);
      assert forall i :: 1 <= i < |steps| ==> steps[i] == steps[1..][i - 1];
    }
  }

  /** Line `i` renders the number and name of step `i`. */
  lemma {:induction false} StepLinesContent(steps: seq<Json>, line: (Json, Json) -> string)
    requires StepLines(steps, line).Success?
    ensures forall i :: 0 <= i < |steps| ==>
      WellFormedStep(steps[i]) && StepLines(steps, line).value[i] ==
        line(Lookup(steps[i].fields, "step_number").value, Lookup(steps[i].fields, "step_name").value)
  {
    if steps != [] {
      StepLinesContent(steps[1..], line);
      assert forall i :: 1 <= i < |steps| ==> steps[i] == steps[1..][i - 1];
    }
  }

  /** `f"步骤{step_number}: {step_name}"`. */
  function TextLine(number: Json, name: Json): string
  {
    "步骤" + Show(number) + ": " + Show(name)
  }

  /** `f"**步骤 {step_number}**: {step_name}\n\n"`. */
  function MarkdownLine(number: Json, name: Json): string
  {
    "**步骤 " + Show(number) + "**: " + Show(name) + "\n\n"
  }

  const FailedAnswer: string := "查询失败"

  /**
   * The steps the success branch renders: `structured_steps` when truthy,
   * else those generated from a truthy `steps`, else the falsy value itself.
   */
  function ChosenSteps(result: map<string, Json>): (r: Result<seq<Json>>)
    ensures Truthy(GetOr(result, "structured_steps", JArr([]))) ==>
      r == (match Iterate(GetOr(result, "structured_steps", JArr([])))
            case Some(s) => Success(s)
            case None => Failure("TypeError: not iterable"))
  {
    var structured := GetOr(result, "structured_steps", JArr([]));
    if !Truthy(structured) && Truthy(GetOr(result, "steps", JNull)) then
      match Iterate(result["steps"])
      case Some(items) => Success(GenerateSteps(items))
      case None => Failure("TypeError: not iterable")
    else
      match Iterate(structured)
      case Some(s) => Success(s)
      case None => Failure("TypeError: not iterable")
  }

  /**
   * `format_operation_response`. A failed result always formats, with the
   * answer taken from `answer`, else `message`, else a fixed text; a
   * successful one carries the steps text as its answer only when the
   * result has no `answer` key.
   */
  function OperationResponse(result: map<string, Json>): (r: Result<map<string, Json>>)
    ensures !Truthy(GetOr(result, "success", JNull)) ==> r.Success?
    ensures r.Success? ==> "success" in r.value && r.value["success"] == JBool(Truthy(GetOr(result, "success", JNull)))
    ensures r.Success? ==> "answer" in r.value && "question" in r.value && "execution_time" in r.value
    ensures r.Success? ==> r.value["question"] == GetOr(result, "question", JStr(""))
    ensures !Truthy(GetOr(result, "success", JNull)) ==>
      "message" in r.value && "error" in r.value &&
      r.value["answer"] == GetOr(result, "answer", GetOr(result, "message", JStr(FailedAnswer))) &&
      r.value["message"] == GetOr(result, "answer", JStr(FailedAnswer)) &&
      r.value["error"] == GetOr(result, "error_message", JNull)
    ensures r.Success? && Truthy(GetOr(result, "success", JNull)) && "answer" in result ==>
      r.value["answer"] == result["answer"]
  {
    if !Truthy(GetOr(result, "success", JNull)) then
      Success(map[
        "success" := JBool(false),
        "question" := GetOr(result, "question", JStr("")),
        "answer" := GetOr(result, "answer", GetOr(result, "message", JStr(FailedAnswer))),
        "message" := GetOr(result, "answer", JStr(FailedAnswer)),
        "error" := GetOr(result, "error_message", JNull),
        "execution_time" := GetOr(result, "execution_time", Int(0))])
    else
      match ChosenSteps(result)
      case Failure(e) => Failure(e)
      case Success(steps) =>
        match StepLines(steps, TextLine)
        case Failure(e) => Failure(e)
        case Success(lines) =>
          Success(map[
            "success" := JBool(true),
            "question" := GetOr(result, "question", JStr("")),
            "operation" := GetOr(result, "operation", JStr("")),
            "answer" := GetOr(result, "answer", JStr(Join(lines, "\n"))),
            "execution_time" := GetOr(result, "execution_time", Int(0))])
  }

  /**
   * Plain step names with no structured steps and no ready answer become
   * the answer `步骤1: …`, `步骤2: …`, one line per name in order.
   */
  lemma GeneratedStepsAnswer(result: map<string, Json>, names: seq<Json>)
    requires Truthy(GetOr(result, "success", JNull))
    requires !Truthy(GetOr(result, "structured_steps", JArr([])))
    requires "steps" in result && result["steps"] == JArr(names) && names != []
    requires "answer" !in result
    ensures OperationResponse(result).Success?
    ensures OperationResponse(result).value["answer"] ==
      JStr(Join(seq(|names|, i requires 0 <= i < |names| => TextLine(Int(i + 1), names[i])), "\n"))
  {
    assert ChosenSteps(result) == Success(GenerateSteps(names));
    GeneratedLines(names, TextLine);
    var lines := StepLines(GenerateSteps(names), TextLine).value;
    SameElements(lines, seq(|names|, i requires 0 <= i < |names| => TextLine(Int(i + 1), names[i])));
  }

  /** A generated step is well formed and carries its number and name. */
  lemma GeneratedStepFields(n: nat, name: Json)
    ensures WellFormedStep(GeneratedStep(n, name))
    ensures Lookup(GeneratedStep(n, name).fields, "step_number") == Some(Int(n))
    ensures Lookup(GeneratedStep(n, name).fields, "step_name") == Some(name)
  {
    var f := GeneratedStep(n, name).fields;
    assert f[0].0 == "step_number" && f[1].0 == "step_name";
    assert f[1..] == [("step_name", name), ("description", name)];
    assert Lookup(f[1..], "step_name") == Some(name);
  }

  /** Generated steps always render, step `i` as `步骤<i + 1>: <name>`. */
  lemma GeneratedLines(names: seq<Json>, line: (Json, Json) -> string)
    ensures StepLines(GenerateSteps(names), line) ==
      Success(seq(|names|, i requires 0 <= i < |names| => line(Int(i + 1), names[i])))
  {
    GeneratedStepsSucceed(names, line);
    var lines := StepLines(GenerateSteps(names), line).value;
    var want := seq(|names|, i requires 0 <= i < |names| => line(Int(i + 1), names[i]));
    forall i | 0 <= i < |want|
      ensures lines[i] == want[i]
    {
      GeneratedLineAt(names, line, i);
    }
    SameElements(lines, want);
  }

  lemma SameElements<T>(a: seq<T>, b: seq<T>)
    requires |a| == |b|
    requires forall i :: 0 <= i < |a| ==> a[i] == b[i]
    ensures a == b
  {
  }

  lemma GeneratedStepsSucceed(names: seq<Json>, line: (Json, Json) -> string)
    ensures StepLines(GenerateSteps(names), line).Success?
  {
    var steps := GenerateSteps(names);
    forall i | 0 <= i < |steps|
      ensures WellFormedStep(steps[i])
    {
      GeneratedStepFields(i + 1, names[i]);
    }
    StepLinesSucceed(steps, line);
  }

  lemma GeneratedLineAt(names: seq<Json>, line: (Json, Json) -> string, i: nat)
    requires i < |names|
    ensures StepLines(GenerateSteps(names), line).Success?
    ensures StepLines(GenerateSteps(names), line).value[i] == line(Int(i + 1), names[i])
  {
    var steps := GenerateSteps(names);
    GeneratedStepsSucceed(names, line);
    StepLinesContent(steps, line);
    GeneratedStepFields(i + 1, names[i]);
  }

  /**
   * `format_for_json_api`: status `success` or `error`; the data only on
   * success and the error only on failure.
   */
  function JsonApi(result: map<string, Json>): (r: Result<map<string, Json>>)
    ensures r.Success? <==> OperationResponse(result).Success?
    ensures r.Success? ==> r.value.Keys == {"status", "data", "error", "execution_time"}
    ensures r.Success? ==>
      (r.value["status"] == JStr("success") <==> Truthy(GetOr(result, "success", JNull)))
    ensures r.Success? ==> (r.value["data"] == JNull <==> !Truthy(GetOr(result, "success", JNull)))
    ensures r.Success? && Truthy(GetOr(result, "success", JNull)) ==> r.value["error"] == JNull
    ensures r.Success? && !Truthy(GetOr(result, "success", JNull)) ==>
      r.value["error"] == GetOr(result, "error_message", JNull)
  {
    match OperationResponse(result)
    case Failure(e) => Failure(e)
    case Success(formatted) =>
      var ok := formatted["success"] == JBool(true);
      Success(map[
        "status" := JStr(if ok then "success" else "error"),
        "data" := if ok then JObj([("question", GetOr(formatted, "question", JNull)),
                                   ("operation", GetOr(formatted, "operation", JNull)),
                                   ("answer", GetOr(formatted, "answer", JNull))])
                  else JNull,
        "error" := if ok then JNull else GetOr(formatted, "error", JNull),
        "execution_time" := GetOr(formatted, "execution_time", JNull)])
  }

  const FailureBanner: string := "**查询失败**: "
  const NoSteps: string := "未找到相关步骤信息。"
  const StepsHeading: string := "### 操作步骤\n\n"

  /**
   * `format_for_frontend_display`: a failure banner, a fixed notice when
   * `steps.items` is empty, else a heading and one Markdown line per step.
   * A `steps` value that is not an object raises at `.get`.
   */
  function FrontendDisplay(result: map<string, Json>): (r: Result<string>)
    ensures !Truthy(GetOr(result, "success", JNull)) ==>
      r == Success(FailureBanner + Show(GetOr(result, "message", JStr("未知错误"))))
    ensures Truthy(GetOr(result, "success", JNull)) && "steps" !in result ==> r == Success(NoSteps)
    ensures Truthy(GetOr(result, "success", JNull)) && "steps" in result && !result["steps"].JObj? ==> r.Failure?
    ensures r.Success? && Truthy(GetOr(result, "success", JNull)) && r.value != NoSteps ==>
      var heading := "## " + Show(GetOr(result, "operation", JStr(OperationSuffix))) + "\n\n" + StepsHeading;
      |r.value| > |heading| && r.value[..|heading|] == heading
  {
    if !Truthy(GetOr(result, "success", JNull)) then
      Success(FailureBanner + Show(GetOr(result, "message", JStr("未知错误"))))
    else
      var stepsObj := GetOr(result, "steps", JObj([]));
      if !stepsObj.JObj? then Failure("AttributeError: 'get'")
      else
        var items := FieldOr(stepsObj.fields, "items", JArr([]));
        if !Truthy(items) then Success(NoSteps)
        else
          match Iterate(items)
          case None => Failure("TypeError: not iterable")
          case Some(steps) =>
            match StepLines(steps, MarkdownLine)
            case Failure(e) => Failure(e)
            case Success(lines) =>
              var heading := "## " + Show(GetOr(result, "operation", JStr(OperationSuffix))) + "\n\n" + StepsHeading;
              var body := Concat(lines);
              assert |body| > 0 by {
                assert items.JArr? || items.JStr? || items.JObj?;
                assert |steps| > 0;
                StepLinesContent(steps, MarkdownLine);
                ConcatNonEmpty(lines);
              }
              var md := heading + body;
              assert md[..|heading|] == heading;
              assert md != NoSteps by { assert |NoSteps| < |heading| + 1; }
              Success(md)
  }

  const OperationSuffix: string := "操作"

  function Concat(xs: seq<string>): string
  {
    if xs == [] then "" else xs[0] + Concat(xs[1..])
  }

  /** Markdown step lines are never empty, so neither is their concatenation. */
  lemma ConcatNonEmpty(xs: seq<string>)
    requires xs != [] && forall i :: 0 <= i < |xs| ==> xs[i] != ""
    ensures |Concat(xs)| > 0
  {
  }
}
