/** The flow-graph code generator of `src/ts-morph4.ts`: from the `start-node` it
    follows `next` links, lets a per-shape handler validate each node's property
    bag and render statements, appends them to the source file while recording
    the range each operation wrote, and attributes compiler diagnostics to the
    recorded ranges. */
module TsMorph4 {
  import opened Basics
  import opened JsValue
  import opened Morph
  import opened Provenance

  /** `IIntermediateNode`. */
  datatype Node = Node(id: string, shape: string, next: Option<string>, data: Option<Json>)

  datatype HandlerKind = StartHandler | ChangeVariableHandler | CallLogicHandler

  /** Everything that makes `generate` throw. */
  datatype GenError =
    | StartNodeNotFound
    | UnknownNodeType(shape: string)
    | InvalidProperties(handler: HandlerKind)
    | UnknownOperationType(kind: string)
      /** A JavaScript TypeError: property access on null, `forEach` on a value
          that is not an array, `toString` on null. */
    | TypeError
      /** `processNode` recursed more deeply than the stack allows (a cyclic
          `next` chain). */
    | CallStackExhausted

  /** `AstOperation` whose `config.statements` writer writes `lines`. */
  datatype Operation = Operation(kind: string, nodeId: string, lines: seq<string>)

  /** `CodeSegment`: which tag wrote which range, by which kind of operation. */
  datatype CodeSegment = CodeSegment(nodeId: string, span: Span, kind: string)

  const AddStatementsKind: string := "addStatements"
  const ChangeVariableTag: string := "change-variable"
  const CallLogicTag: string := "call-logic"

  /** The tags the handlers put on their operations: fixed per handler, never a
      graph node id. */
  predicate IsHandlerTag(s: string)
  {
    s == ChangeVariableTag || s == CallLogicTag
  }

  /** The handler registry filled by the `CodeGenerator` constructor. */
  function HandlerFor(shape: string): Option<HandlerKind>
  {
    if shape == "start-node" then Some(StartHandler)
    else if shape == "call-logic-node" then Some(CallLogicHandler)
    else if shape == "change-variable-node" then Some(ChangeVariableHandler)
    else None
  }

  // ====================================================== change-variable node

  /** `ChangeVariableNodeHandler.validateProperties`. */
  predicate ValidChangeVariable(props: Option<Json>)
  {
    Truthy(props)
    && IsArray(Prop(props.value, "key"))
    && IsString(Prop(props.value, "value"))
    && IsString(Prop(props.value, "valueType"))
  }

  /** `ChangeVariableNodeHandler.convertValue`, for the string value validation
      guarantees. */
  function ConvertChangeValue(value: string, valueType: string): string
  {
    if LowerEquals(valueType, "string") then "\"" + value + "\""
    else if LowerEquals(valueType, "number") then value
    else if LowerEquals(valueType, "boolean") then (if value != "" then "true" else "false")
    else "undefined"
  }

  /** `arr[i]` on a possibly missing array: `undefined` when out of range. */
  function Item(arr: Option<Json>, i: nat): Option<Json>
  {
    if IsArray(arr) && i < |arr.value.items| then Some(arr.value.items[i]) else None
  }

  /** The writer of a validated change-variable node. The exact type 'string'
      deliberately writes a declaration followed by a numeric assignment (a type
      error for the compiler to report); every other type writes one assignment. */
  function ChangeVariableLines(props: Json): seq<string>
  {
    var name := OptText(Item(Prop(props, "key"), 1));
    var valueType := StringOf(Prop(props, "valueType"));
    if valueType == "string" then ["let " + name + ": string;", name + " = 42;"]
    else [name + " = " + ConvertChangeValue(StringOf(Prop(props, "value")), valueType) + ";"]
  }

  // =========================================================== call-logic node

  /** `props.params.every(...)`: stops at the first parameter whose `key` or
      `valueType` is not a string; reading a property of a null parameter throws. */
  function ParamsValid(ps: seq<Json>): (r: Result<bool, GenError>)
    ensures r.Err? <==> exists i :: 0 <= i < |ps| && ps[i].JNull?
                         && forall j :: 0 <= j < i ==> IsString(Prop(ps[j], "key")) && IsString(Prop(ps[j], "valueType"))
    ensures r.Err? ==> r.error == TypeError
    decreases |ps|
  {
    if ps == [] then Ok(true)
    else if ps[0].JNull? then Err(TypeError)
    else if !(IsString(Prop(ps[0], "key")) && IsString(Prop(ps[0], "valueType"))) then Ok(false)
    else ParamsValid(ps[1..])
  }

  /** `CallLogicNodeHandler.validateProperties`, evaluated left to right with
      JavaScript's short-circuit `&&` and `||`. */
  function ValidateCallLogic(props: Option<Json>): (r: Result<bool, GenError>)
    ensures r.Err? ==> r.error == TypeError
  {
    if !Truthy(props) then Ok(false)
    else if !IsString(Prop(props.value, "chainId")) then Ok(false)
    else
      var params := Prop(props.value, "params");
      var paramsOk :=
        if !Truthy(params) then Ok(true)
        else if !IsArray(params) then Ok(false)
        else ParamsValid(params.value.items);
      if paramsOk.Err? then paramsOk
      else if !paramsOk.value then Ok(false)
      else
        var result := Prop(props.value, "result");
        Ok(!Truthy(result) || IsArray(Prop(result.value, "key")))
  }

  /** `CallLogicNodeHandler.convertValue`: like the change-variable one, plus the
      'object' type; `value.toString()` throws on null. */
  function ConvertCallValue(value: Json, valueType: string): Result<string, GenError>
  {
    if LowerEquals(valueType, "string") then Ok("\"" + ToText(value) + "\"")
    else if LowerEquals(valueType, "number") then (if value.JNull? then Err(TypeError) else Ok(ToText(value)))
    else if LowerEquals(valueType, "boolean") then Ok(if Truthy(Some(value)) then "true" else "false")
    else if LowerEquals(valueType, "object") then Ok(Stringify(value))
    else Ok("undefined")
  }

  function ParamName(n: nat): string
  {
    "paramValue_" + NatText(n)
  }

  /** What the first `forEach` writes for one parameter under the given name:
      nothing when the parameter has no value. */
  function DeclarationLine(param: Json, name: string): Result<seq<string>, GenError>
  {
    var value := Prop(param, "value");
    var valueType := Prop(param, "valueType");
    if value.Some? && valueType.Some? then
      match ConvertCallValue(value.value, StringOf(valueType))
      case Err(e) => Err(e)
      case Ok(t) => Ok(["const " + name + " = " + t + ";"])
    else Ok([])
  }

  /** The declaration of every parameter, each under the name the counter gives
      it when its turn comes: `paramValue_<base + i>` for the i-th. */
  function LineResults(ps: seq<Json>, base: nat): (r: seq<Result<seq<string>, GenError>>)
    ensures |r| == |ps|
    decreases |ps|
  {
    if ps == [] then []
    else LineResults(ps[..|ps| - 1], base) + [DeclarationLine(ps[|ps| - 1], ParamName(base + |ps| - 1))]
  }

  /** The i-th result is the i-th parameter's declaration under the i-th name. */
  lemma {:induction false} LineResultsAt(ps: seq<Json>, base: nat, i: nat)
    requires i < |ps|
    ensures DeclaredAt(LineResults(ps, base), ps, base, i)
    decreases |ps|
  {
    var last := |ps| - 1;
    if i < last {
      LineResultsAt(ps[..last], base, i);
      assert LineResults(ps, base)[i] == LineResults(ps[..last], base)[i];
      assert ps[..last][i] == ps[i];
    }
  }

  /** `rs[i]` is what the i-th turn of the first `forEach` writes when the
      counter starts at `base`. */
  predicate DeclaredAt(rs: seq<Result<seq<string>, GenError>>, ps: seq<Json>, base: nat, i: nat)
    requires i < |rs| && i < |ps|
  {
    rs[i] == DeclarationLine(ps[i], ParamName(base + i))
  }

  /** A writer over the first `n` results: their lines in order, ended by the
      first failure. */
  function Collect(rs: seq<Result<seq<string>, GenError>>, n: nat): Result<seq<string>, GenError>
    requires n <= |rs|
    decreases n
  {
    if n == 0 then Ok([])
    else
      match Collect(rs, n - 1)
      case Err(e) => Err(e)
      case Ok(ls) =>
        match rs[n - 1]
        case Err(e) => Err(e)
        case Ok(d) => Ok(ls + d)
  }

  /** How many of the first `n` results the writer reached: a failure ends the
      visits. */
  function Visited(rs: seq<Result<seq<string>, GenError>>, n: nat): nat
    requires n <= |rs|
    decreases n
  {
    if n == 0 then 0
    else if Collect(rs, n - 1).Err? then Visited(rs, n - 1)
    else n
  }

  /** The declarations written for the first `n` parameters. */
  function Declarations(ps: seq<Json>, base: nat, n: nat): Result<seq<string>, GenError>
    requires n <= |ps|
  {
    Collect(LineResults(ps, base), n)
  }

  /** The static counter after the first `n` parameters were visited: each visit
      increments it before converting. */
  function CounterAfter(ps: seq<Json>, base: nat, n: nat): nat
    requires n <= |ps|
  {
    base + Visited(LineResults(ps, base), n)
  }

  /** One entry of the `param` block: `key: paramValue_<index>`, with a comma
      after every entry but the last. */
  function ParamEntry(ps: seq<Json>, i: nat): string
    requires i < |ps|
  {
    OptText(Prop(ps[i], "key")) + ": " + ParamName(i) + (if i < |ps| - 1 then "," else "")
  }

  function ParamEntries(ps: seq<Json>): (r: seq<string>)
    ensures |r| == |ps|
  {
    seq(|ps|, i requires 0 <= i < |ps| => ParamEntry(ps, i))
  }

  function RequestLines(chainId: string, entries: seq<string>): seq<string>
  {
    ["const requestConfig = {", "method: 'post',", "url: '/api/logic-engine/chain/submit',",
     "data: {", "chainId: '" + chainId + "',", "param: {"]
    + entries + ["}", "}", "}"]
  }

  const RequestCall: string := "await window.request(requestConfig);"

  /** The request call, assigned to the last element of `result.key` when that
      array is not empty. */
  function ResultLine(result: Option<Json>): string
  {
    if Truthy(result) && IsArray(Prop(result.value, "key")) && |Prop(result.value, "key").value.items| > 0 then
      var keys := Prop(result.value, "key").value.items;
      ToText(keys[|keys| - 1]) + " = " + RequestCall
    else RequestCall
  }

  /** `params = []` when absent; a present value that is not an array makes
      `forEach` throw. */
  function ParamList(props: Json): Result<seq<Json>, GenError>
  {
    var params := Prop(props, "params");
    if params.None? then Ok([])
    else if params.value.JArr? then Ok(params.value.items)
    else Err(TypeError)
  }

  /** The writer of a validated call-logic node, and the static counter after it. */
  function CallLogicEmission(props: Json, counter: nat): (Result<seq<string>, GenError>, nat)
  {
    match ParamList(props)
    case Err(e) => (Err(e), counter)
    case Ok(ps) =>
      var decls := Declarations(ps, counter, |ps|);
      var after := CounterAfter(ps, counter, |ps|);
      if decls.Err? then (Err(decls.error), after)
      else
        (Ok(decls.value + RequestLines(StringOf(Prop(props, "chainId")), ParamEntries(ps))
            + [ResultLine(Prop(props, "result"))]), after)
  }

  /** One step of the writer: an earlier failure is kept, otherwise the next
      result decides. */
  lemma CollectNext(rs: seq<Result<seq<string>, GenError>>, n: nat)
    requires 0 < n <= |rs|
    ensures Collect(rs, n) ==
              if Collect(rs, n - 1).Err? then Collect(rs, n - 1)
              else if rs[n - 1].Err? then Err(rs[n - 1].error)
              else Ok(Collect(rs, n - 1).value + rs[n - 1].value)
    ensures Visited(rs, n) == if Collect(rs, n - 1).Err? then Visited(rs, n - 1) else n
  {
  }

  /** Once a result fails, every longer prefix fails the same way and the visits
      stop right after it. */
  lemma {:induction false} CollectStopAtFailure(rs: seq<Result<seq<string>, GenError>>, i: nat, n: nat)
    requires i < n <= |rs|
    requires Collect(rs, i).Ok? && rs[i].Err?
    ensures Collect(rs, n) == Err(rs[i].error)
    ensures Visited(rs, n) == i + 1
    decreases n
  {
    if n > i + 1 {
      CollectStopAtFailure(rs, i, n - 1);
    }
    CollectNext(rs, n);
  }

  /** The writer reaches at most the results it is given, and all of them when
      it succeeds. */
  lemma {:induction false} VisitedBounds(rs: seq<Result<seq<string>, GenError>>, n: nat)
    requires n <= |rs|
    ensures Visited(rs, n) <= n
    ensures Collect(rs, n).Ok? ==> Visited(rs, n) == n
    decreases n
  {
    if n > 0 {
      CollectNext(rs, n);
      VisitedBounds(rs, n - 1);
    }
  }

  /** The writer fails only with an error one of its results fails with. */
  lemma {:induction false} CollectErrors(rs: seq<Result<seq<string>, GenError>>, n: nat, e: GenError)
    requires n <= |rs|
    requires forall i :: 0 <= i < n && rs[i].Err? ==> rs[i].error == e
    ensures Collect(rs, n).Err? ==> Collect(rs, n).error == e
    decreases n
  {
    if n > 0 {
      CollectNext(rs, n);
      CollectErrors(rs, n - 1, e);
    }
  }

  /** When every result is a single line, a successful writer holds exactly those
      lines, in order. */
  lemma {:induction false} CollectSingles(rs: seq<Result<seq<string>, GenError>>, n: nat)
    requires n <= |rs|
    requires Collect(rs, n).Ok?
    requires forall i :: 0 <= i < n && rs[i].Ok? ==> |rs[i].value| == 1
    ensures |Collect(rs, n).value| == n
    ensures forall i :: 0 <= i < n ==> rs[i] == Ok([Collect(rs, n).value[i]])
    decreases n
  {
    if n > 0 {
      CollectNext(rs, n);
      CollectSingles(rs, n - 1);
      var prev := Collect(rs, n - 1).value;
      var all := Collect(rs, n).value;
      assert all == prev + rs[n - 1].value;
      forall i | 0 <= i < n ensures rs[i] == Ok([all[i]]) {
        if i < n - 1 {
          assert all[i] == prev[i];
        } else {
          assert rs[n - 1].value == [all[i]];
        }
      }
    }
  }

  /** Once a declaration fails, every longer prefix fails the same way and the
      counter stays where the failing visit left it. */
  lemma DeclarationsStopAtFailure(ps: seq<Json>, base: nat, i: nat, n: nat)
    requires i < n <= |ps|
    requires Declarations(ps, base, i).Ok?
    requires DeclarationLine(ps[i], ParamName(base + i)).Err?
    ensures Declarations(ps, base, n) == Err(DeclarationLine(ps[i], ParamName(base + i)).error)
    ensures CounterAfter(ps, base, n) == base + i + 1
  {
    LineResultsAt(ps, base, i);
    CollectStopAtFailure(LineResults(ps, base), i, n);
  }

  /** One step of the writer over the parameters. */
  lemma DeclarationsNext(ps: seq<Json>, base: nat, n: nat)
    requires 0 < n <= |ps|
    ensures var line := DeclarationLine(ps[n - 1], ParamName(base + n - 1));
            Declarations(ps, base, n) ==
              if Declarations(ps, base, n - 1).Err? then Declarations(ps, base, n - 1)
              else if line.Err? then Err(line.error)
              else Ok(Declarations(ps, base, n - 1).value + line.value)
    ensures CounterAfter(ps, base, n) == if Declarations(ps, base, n - 1).Err? then CounterAfter(ps, base, n - 1) else base + n
  {
    LineResultsAt(ps, base, n - 1);
    CollectNext(LineResults(ps, base), n);
  }

  /** A parameter declares one constant when it has a value and none otherwise;
      the only failure is a `TypeError`. */
  lemma DeclarationLineShape(param: Json, name: string)
    ensures DeclarationLine(param, name).Ok? ==>
              |DeclarationLine(param, name).value| == if Prop(param, "value").Some? && Prop(param, "valueType").Some? then 1 else 0
    ensures DeclarationLine(param, name).Err? ==> DeclarationLine(param, name).error == TypeError
  {
  }

  /** The static `paramCounter` grows by exactly the number of parameters per
      successful call-logic emission, whether or not the parameters have values;
      on failure it has still grown by at least one for every parameter visited. */
  lemma ParamCounterGrowth(props: Json, counter: nat)
    ensures var (lines, after) := CallLogicEmission(props, counter);
            lines.Ok? ==> after == counter + |ParamList(props).value|
    ensures CallLogicEmission(props, counter).1 >= counter
  {
    if ParamList(props).Ok? {
      var ps := ParamList(props).value;
      CounterAfterBounds(ps, counter, |ps|);
    }
  }

  lemma CounterAfterBounds(ps: seq<Json>, base: nat, n: nat)
    requires n <= |ps|
    ensures base <= CounterAfter(ps, base, n) <= base + n
    ensures Declarations(ps, base, n).Ok? ==> CounterAfter(ps, base, n) == base + n
  {
    VisitedBounds(LineResults(ps, base), n);
  }

  /** How many parameters carry a value. */
  function WithValue(ps: seq<Json>, n: nat): nat
    requires n <= |ps|
    decreases n
  {
    if n == 0 then 0
    else WithValue(ps, n - 1) + (if Prop(ps[n - 1], "value").Some? && Prop(ps[n - 1], "valueType").Some? then 1 else 0)
  }

  /** A successful writer declares one constant per parameter that has a value. */
  lemma {:induction false} DeclarationsCount(ps: seq<Json>, base: nat, n: nat)
    requires n <= |ps|
    requires Declarations(ps, base, n).Ok?
    ensures |Declarations(ps, base, n).value| == WithValue(ps, n)
    decreases n
  {
    if n > 0 {
      DeclarationsNext(ps, base, n);
      DeclarationsCount(ps, base, n - 1);
      DeclarationLineShape(ps[n - 1], ParamName(base + n - 1));
    }
  }

  /** When every parameter has a value, the i-th line is parameter i's declaration
      under the name `paramValue_<base + i>`: the names follow the static counter,
      not the parameter's index. */
  lemma DeclarationsAllValued(ps: seq<Json>, base: nat, n: nat)
    requires n <= |ps|
    requires Declarations(ps, base, n).Ok?
    requires forall i :: 0 <= i < n ==> Prop(ps[i], "value").Some? && Prop(ps[i], "valueType").Some?
    ensures |Declarations(ps, base, n).value| == n
    ensures forall i :: 0 <= i < n ==> DeclarationLine(ps[i], ParamName(base + i)) == Ok([Declarations(ps, base, n).value[i]])
  {
    var rs := LineResults(ps, base);
    forall i | 0 <= i < n && rs[i].Ok? ensures |rs[i].value| == 1 {
      LineResultsAt(ps, base, i);
      DeclarationLineShape(ps[i], ParamName(base + i));
    }
    CollectSingles(rs, n);
    forall i | 0 <= i < n
      ensures DeclarationLine(ps[i], ParamName(base + i)) == Ok([Declarations(ps, base, n).value[i]])
    {
      LineResultsAt(ps, base, i);
    }
  }

  /** The name a declaration uses and the name the `param` block refers to for the
      same parameter coincide only while the static counter is still 0: from the
      second call-logic emission of a process on, the block refers to names no
      declaration introduced. */
  lemma ParamNamesAgreeOnlyAtZero(base: nat, i: nat)
    ensures ParamName(base + i) == ParamName(i) <==> base == 0
  {
    if ParamName(base + i) == ParamName(i) {
      assert NatText(base + i) == ParamName(base + i)[|"paramValue_"|..];
      NatTextInjective(base + i, i);
    }
  }

  lemma {:induction false} NatTextInjective(a: nat, b: nat)
    requires NatText(a) == NatText(b)
    ensures a == b
    decreases a
  {
    if a >= 10 && b >= 10 {
      var ta, tb := NatText(a), NatText(b);
      assert ta[..|ta| - 1] == NatText(a / 10) && tb[..|tb| - 1] == NatText(b / 10);
      NatTextInjective(a / 10, b / 10);
      assert DigitChar(a % 10) == ta[|ta| - 1] == DigitChar(b % 10);
      DigitCharInjective(a % 10, b % 10);
    } else if a < 10 && b < 10 {
      DigitCharInjective(a, b);
    } else {
      assert false;
    }
  }

  lemma DigitCharInjective(a: nat, b: nat)
    requires a < 10 && b < 10 && DigitChar(a) == DigitChar(b)
    ensures a == b
  {
  }

  /** Entries with a comma after all but the last. */
  function Commas(xs: seq<string>): (r: seq<string>)
    ensures |r| == |xs|
  {
    seq(|xs|, i requires 0 <= i < |xs| => xs[i] + (if i < |xs| - 1 then "," else ""))
  }

  /** The `param` block, line by line, is the entries `key: paramValue_i` in
      parameter order joined by ",\n": a comma after every entry except the last. */
  lemma ParamBlockIsJoin(ps: seq<Json>)
    requires ps != []
    ensures Render(ParamEntries(ps))
         == Join(seq(|ps|, i requires 0 <= i < |ps| => OptText(Prop(ps[i], "key")) + ": " + ParamName(i)), ",\n") + "\n"
  {
    var pairs := seq(|ps|, i requires 0 <= i < |ps| => OptText(Prop(ps[i], "key")) + ": " + ParamName(i));
    assert ParamEntries(ps) == Commas(pairs);
    CommasRenderAsJoin(pairs);
  }

  lemma {:induction false} CommasRenderAsJoin(xs: seq<string>)
    requires xs != []
    ensures Render(Commas(xs)) == Join(xs, ",\n") + "\n"
    decreases |xs|
  {
    if |xs| == 1 {
      assert Commas(xs)[0] == xs[0];
      assert Commas(xs) == [xs[0]];
      assert Render([xs[0]]) == xs[0] + "\n" + Render([]);
    } else {
      assert Commas(xs) == [xs[0] + ","] + Commas(xs[1..]);
      CommasRenderAsJoin(xs[1..]);
      assert Render(Commas(xs)) == xs[0] + "," + "\n" + Render(Commas(xs[1..]));
    }
  }

  /** The call-logic `convertValue` agrees with the change-variable one on string
      values for every type but 'object', which only it knows. */
  lemma ConvertersAgree(value: string, valueType: string)
    ensures ToLower(valueType) != "object" ==> ConvertCallValue(JStr(value), valueType) == Ok(ConvertChangeValue(value, valueType))
    ensures ToLower(valueType) == "object" ==>
              ConvertCallValue(JStr(value), valueType) == Ok(Quote(value)) && ConvertChangeValue(value, valueType) == "undefined"
  {
    LowerEqualsIff(valueType, "object");
  }

  /** Both converters look at the type only after lower-casing it. */
  lemma ConvertersIgnoreCase(value: Json, valueType: string)
    ensures ConvertCallValue(value, valueType) == ConvertCallValue(value, ToLower(valueType))
    ensures value.JStr? ==> ConvertChangeValue(value.s, valueType) == ConvertChangeValue(value.s, ToLower(valueType))
  {
    LowerEqualsLowered(valueType, "string");
    LowerEqualsLowered(valueType, "number");
    LowerEqualsLowered(valueType, "boolean");
    LowerEqualsLowered(valueType, "object");
  }

  /** Comparing a type name case-insensitively gives the same answer once it is
      lower-cased. */
  lemma LowerEqualsLowered(a: string, b: string)
    ensures LowerEquals(a, b) == LowerEquals(ToLower(a), b)
  {
    ToLowerIdempotent(a);
    LowerEqualsIff(a, b);
    LowerEqualsIff(ToLower(a), b);
  }

  // ================================================================== handle

  /** `BaseNodeHandler.handle` for the node's registered handler, with the static
      counter before and after (the call-logic writer runs as part of it). */
  function HandleSpec(node: Node, counter: nat): (Result<seq<Operation>, GenError>, nat)
  {
    match HandlerFor(node.shape)
    case None => (Err(UnknownNodeType(node.shape)), counter)
    case Some(StartHandler) => (Ok([]), counter)
    case Some(ChangeVariableHandler) =>
      if !ValidChangeVariable(node.data) then (Err(InvalidProperties(ChangeVariableHandler)), counter)
      else (Ok([Operation(AddStatementsKind, ChangeVariableTag, ChangeVariableLines(node.data.value))]), counter)
    case Some(CallLogicHandler) =>
      match ValidateCallLogic(node.data)
      case Err(e) => (Err(e), counter)
      case Ok(valid) =>
        if !valid then (Err(InvalidProperties(CallLogicHandler)), counter)
        else
          var (lines, after) := CallLogicEmission(node.data.value, counter);
          match lines
          case Err(e) => (Err(e), after)
          case Ok(ls) => (Ok([Operation(AddStatementsKind, CallLogicTag, ls)]), after)
  }

  /** What each handler answers: an unregistered shape is an error, the start
      handler writes nothing, the other two fail exactly when their validation
      rejects the node; every operation is an `addStatements` under a handler tag,
      and only the call-logic handler moves the counter, never backwards. */
  lemma HandleOutcome(node: Node, counter: nat)
    ensures var r := HandleSpec(node, counter);
            && (HandlerFor(node.shape).None? ==> r.0 == Err(UnknownNodeType(node.shape)))
            && (HandlerFor(node.shape) == Some(StartHandler) ==> r.0 == Ok([]))
            && (HandlerFor(node.shape) == Some(ChangeVariableHandler) ==>
                  (r.0.Err? <==> !ValidChangeVariable(node.data))
                  && (r.0.Err? ==> r.0.error == InvalidProperties(ChangeVariableHandler)))
            && (HandlerFor(node.shape) == Some(CallLogicHandler) ==>
                  (r.0 == Err(InvalidProperties(CallLogicHandler)) <==> ValidateCallLogic(node.data) == Ok(false)))
            && (r.0.Ok? ==> forall op :: op in r.0.value ==> op.kind == AddStatementsKind && IsHandlerTag(op.nodeId))
            && counter <= r.1
            && (HandlerFor(node.shape) != Some(CallLogicHandler) ==> r.1 == counter)
  {
    if HandlerFor(node.shape) == Some(CallLogicHandler) && ValidateCallLogic(node.data) == Ok(true) {
      ParamCounterGrowth(node.data.value, counter);
      CallLogicErrorsAreTypeErrors(node.data.value, counter);
    }
  }

  lemma CallLogicErrorsAreTypeErrors(props: Json, counter: nat)
    ensures CallLogicEmission(props, counter).0.Err? ==> CallLogicEmission(props, counter).0.error == TypeError
  {
    match ParamList(props)
    case Err(_) =>
    case Ok(ps) => DeclarationErrorsAreTypeErrors(ps, counter, |ps|);
  }

  lemma DeclarationErrorsAreTypeErrors(ps: seq<Json>, base: nat, n: nat)
    requires n <= |ps|
    ensures Declarations(ps, base, n).Err? ==> Declarations(ps, base, n).error == TypeError
  {
    var rs := LineResults(ps, base);
    forall i | 0 <= i < n && rs[i].Err? ensures rs[i].error == TypeError {
      LineResultsAt(ps, base, i);
      DeclarationLineShape(ps[i], ParamName(base + i));
    }
    CollectErrors(rs, n, TypeError);
  }

  // ============================================================ apply / walk

  /** What the generator has written so far: the source text, the recorded
      segments and the static parameter counter. */
  datatype GenState = GenState(text: string, segments: seq<CodeSegment>, counter: nat)

  /** `AstTransformer.applyOperation` on the state. */
  function ApplySpec(op: Operation, st: GenState): Result<GenState, GenError>
  {
    if op.kind == AddStatementsKind then
      var text := st.text + Render(op.lines);
      Ok(st.(text := text, segments := st.segments + [CodeSegment(op.nodeId, Span(|st.text|, |text|), op.kind)]))
    else Err(UnknownOperationType(op.kind))
  }

  /** `operations.forEach(op => applyOperation(op))`: stops at the first throw. */
  function ApplyAll(ops: seq<Operation>, st: GenState): (Outcome<GenError>, GenState)
    decreases |ops|
  {
    if ops == [] then (Pass, st)
    else
      match ApplySpec(ops[0], st)
      case Err(e) => (Fail(e), st)
      case Ok(st1) => ApplyAll(ops[1..], st1)
  }

  /** `nodes.find(node => node.id === id)`, as an index. */
  function FindById(nodes: seq<Node>, id: string): (r: Option<nat>)
    ensures r.Some? ==> r.value < |nodes| && nodes[r.value].id == id
                        && forall j :: 0 <= j < r.value ==> nodes[j].id != id
    ensures r.None? ==> forall j :: 0 <= j < |nodes| ==> nodes[j].id != id
    decreases |nodes|
  {
    if nodes == [] then None
    else if nodes[0].id == id then Some(0)
    else
      match FindById(nodes[1..], id)
      case None => None
      case Some(k) => Some(k + 1)
  }

  /** `nodes.find(node => node.shape === 'start-node')`, as an index. */
  function FindStart(nodes: seq<Node>): (r: Option<nat>)
    ensures r.Some? ==> r.value < |nodes| && nodes[r.value].shape == "start-node"
                        && forall j :: 0 <= j < r.value ==> nodes[j].shape != "start-node"
    ensures r.None? ==> forall j :: 0 <= j < |nodes| ==> nodes[j].shape != "start-node"
    decreases |nodes|
  {
    if nodes == [] then None
    else if nodes[0].shape == "start-node" then Some(0)
    else
      match FindStart(nodes[1..])
      case None => None
      case Some(k) => Some(k + 1)
  }

  /** `processNode`: handle the node, apply its operations in order, then continue
      with the node its `next` names, if that is truthy and resolves. `fuel` bounds
      the recursion depth. */
  function Process(nodes: seq<Node>, node: Node, fuel: nat, st: GenState): (Outcome<GenError>, GenState)
    decreases fuel, 2
  {
    if fuel == 0 then (Fail(CallStackExhausted), st) else Visit(nodes, node, fuel, st)
  }

  /** One visit: run the node's handler, then proceed with its operations. */
  function Visit(nodes: seq<Node>, node: Node, fuel: nat, st: GenState): (Outcome<GenError>, GenState)
    requires fuel > 0
    decreases fuel, 1
  {
    var (handled, counter) := HandleSpec(node, st.counter);
    var st1 := st.(counter := counter);
    if handled.Err? then (Fail(handled.error), st1)
    else Proceed(nodes, node, fuel, handled.value, st1)
  }

  /** The rest of `processNode` once the handler produced `ops`: apply them in
      order, then continue with the node `next` names, if that is truthy and
      resolves. */
  function Proceed(nodes: seq<Node>, node: Node, fuel: nat, ops: seq<Operation>, st1: GenState): (Outcome<GenError>, GenState)
    requires fuel > 0
    decreases fuel, 0
  {
    var (applied, st2) := ApplyAll(ops, st1);
    if applied.Fail? then (applied, st2)
    else if node.next.Some? && node.next.value != "" then
      match FindById(nodes, node.next.value)
      case None => (Pass, st2)
      case Some(k) => Process(nodes, nodes[k], fuel - 1, st2)
    else (Pass, st2)
  }

  /** `generate`. */
  function GenerateSpec(nodes: seq<Node>, fuel: nat, st: GenState): (Outcome<GenError>, GenState)
  {
    match FindStart(nodes)
    case None => (Fail(StartNodeNotFound), st)
    case Some(k) => Process(nodes, nodes[k], fuel, st)
  }

  // ======================================================= what the walk keeps

  /** The ranges of this variant's segments. Each variant of the source declares
      its own `CodeSegment` type, so each module projects its own. */
  function Spans(segs: seq<CodeSegment>): (r: seq<Span>)
    ensures |r| == |segs|
    ensures forall i :: 0 <= i < |segs| ==> r[i] == segs[i].span
  {
    seq(|segs|, i requires 0 <= i < |segs| => segs[i].span)
  }

  /** The recorded segments tile the whole text from offset 0, and each carries a
      handler tag and the `addStatements` kind. */
  predicate Consistent(st: GenState)
  {
    Tiles(Spans(st.segments), 0, |st.text|)
    && forall i :: 0 <= i < |st.segments| ==> IsHandlerTag(st.segments[i].nodeId) && st.segments[i].kind == AddStatementsKind
  }

  /** `st2` only appended to `st1`: text, segments, and a counter that never drops. */
  predicate Extends(st1: GenState, st2: GenState)
  {
    st1.text <= st2.text && st1.segments <= st2.segments && st1.counter <= st2.counter
  }

  lemma ApplyKeepsConsistent(op: Operation, st: GenState)
    requires Consistent(st) && IsHandlerTag(op.nodeId)
    ensures ApplySpec(op, st).Ok? ==> Consistent(ApplySpec(op, st).value) && Extends(st, ApplySpec(op, st).value)
  {
    if op.kind == AddStatementsKind {
      var st1 := ApplySpec(op, st).value;
      var seg := st1.segments[|st1.segments| - 1];
      assert Spans(st1.segments) == Spans(st.segments) + [seg.span];
      TilesAppend(Spans(st.segments), 0, |st.text|, seg.span);
    }
  }

  lemma {:induction false} ApplyAllKeepsConsistent(ops: seq<Operation>, st: GenState)
    requires Consistent(st)
    requires forall op :: op in ops ==> IsHandlerTag(op.nodeId)
    ensures Consistent(ApplyAll(ops, st).1) && Extends(st, ApplyAll(ops, st).1)
    decreases |ops|
  {
    if ops != [] {
      ApplyKeepsConsistent(ops[0], st);
      if ApplySpec(ops[0], st).Ok? {
        ApplyAllKeepsConsistent(ops[1..], ApplySpec(ops[0], st).value);
      }
    }
  }

  /** Every step of the walk only appends, and keeps the segments a tiling of the
      text whose pieces carry handler tags. */
  lemma {:induction false} ProcessKeepsConsistent(nodes: seq<Node>, node: Node, fuel: nat, st: GenState)
    requires Consistent(st)
    ensures Consistent(Process(nodes, node, fuel, st).1)
    ensures Extends(st, Process(nodes, node, fuel, st).1)
    decreases fuel, 2
  {
    if fuel > 0 {
      VisitKeepsConsistent(nodes, node, fuel, st);
    }
  }

  lemma {:induction false} VisitKeepsConsistent(nodes: seq<Node>, node: Node, fuel: nat, st: GenState)
    requires fuel > 0 && Consistent(st)
    ensures Consistent(Visit(nodes, node, fuel, st).1)
    ensures Extends(st, Visit(nodes, node, fuel, st).1)
    decreases fuel, 1
  {
    HandleOutcome(node, st.counter);
    var (handled, counter) := HandleSpec(node, st.counter);
    var st1 := st.(counter := counter);
    assert Consistent(st1);
    if handled.Ok? {
      ProceedKeepsConsistent(nodes, node, fuel, handled.value, st1);
    }
  }

  lemma {:induction false} ProceedKeepsConsistent(nodes: seq<Node>, node: Node, fuel: nat, ops: seq<Operation>, st1: GenState)
    requires fuel > 0 && Consistent(st1)
    requires forall op :: op in ops ==> IsHandlerTag(op.nodeId)
    ensures Consistent(Proceed(nodes, node, fuel, ops, st1).1)
    ensures Extends(st1, Proceed(nodes, node, fuel, ops, st1).1)
    decreases fuel, 0
  {
    ApplyAllKeepsConsistent(ops, st1);
    var (applied, st2) := ApplyAll(ops, st1);
    if applied.Pass? && node.next.Some? && node.next.value != "" {
      match FindById(nodes, node.next.value)
      case None =>
      case Some(k) => ProcessKeepsConsistent(nodes, nodes[k], fuel - 1, st2);
    }
  }

  /** The fuel only cuts runs short: a run that did not exhaust it ends the same
      way with any larger amount. */
  lemma {:induction false} ProcessFuelMonotone(nodes: seq<Node>, node: Node, fuel: nat, more: nat, st: GenState)
    requires fuel <= more
    requires Process(nodes, node, fuel, st).0 != Fail(CallStackExhausted)
    ensures Process(nodes, node, more, st) == Process(nodes, node, fuel, st)
    decreases fuel, 2
  {
    if fuel > 0 {
      VisitFuelMonotone(nodes, node, fuel, more, st);
    }
  }

  lemma {:induction false} VisitFuelMonotone(nodes: seq<Node>, node: Node, fuel: nat, more: nat, st: GenState)
    requires 0 < fuel <= more
    requires Visit(nodes, node, fuel, st).0 != Fail(CallStackExhausted)
    ensures Visit(nodes, node, more, st) == Visit(nodes, node, fuel, st)
    decreases fuel, 1
  {
    var (handled, counter) := HandleSpec(node, st.counter);
    if handled.Ok? {
      ProceedFuelMonotone(nodes, node, fuel, more, handled.value, st.(counter := counter));
    }
  }

  lemma {:induction false} ProceedFuelMonotone(nodes: seq<Node>, node: Node, fuel: nat, more: nat, ops: seq<Operation>, st1: GenState)
    requires 0 < fuel <= more
    requires Proceed(nodes, node, fuel, ops, st1).0 != Fail(CallStackExhausted)
    ensures Proceed(nodes, node, more, ops, st1) == Proceed(nodes, node, fuel, ops, st1)
    decreases fuel, 0
  {
    var (applied, st2) := ApplyAll(ops, st1);
    if applied.Pass? && node.next.Some? && node.next.value != "" {
      match FindById(nodes, node.next.value)
      case None =>
      case Some(k) =>
        assert Proceed(nodes, node, fuel, ops, st1) == Process(nodes, nodes[k], fuel - 1, st2);
        assert Proceed(nodes, node, more, ops, st1) == Process(nodes, nodes[k], more - 1, st2);
        ProcessFuelMonotone(nodes, nodes[k], fuel - 1, more - 1, st2);
    }
  }

  // ============================================================ diagnostics

  /** One entry of `getDiagnostics`' result. */
  datatype Report = Report(nodeId: string, category: string, message: string)

  /** `segments.find(s => start >= s.start && start <= s.end)?.nodeId || 'unknown'`. */
  function NodeIdAt(segs: seq<CodeSegment>, offset: nat): (r: string)
    ensures r == "unknown" || exists k :: 0 <= k < |segs| && Covers(segs[k].span, offset) && r == segs[k].nodeId
    ensures (forall k :: 0 <= k < |segs| ==> !Covers(segs[k].span, offset)) ==> r == "unknown"
  {
    match FirstCovering(Spans(segs), offset)
    case None => TagOrUnknown(None)
    case Some(k) => TagOrUnknown(Some(segs[k].nodeId))
  }

  /** The report for one diagnostic; one whose start is undefined is dropped. */
  function ReportFor(d: Diagnostic, segs: seq<CodeSegment>): Option<Report>
  {
    if d.start.None? then None
    else Some(Report(NodeIdAt(segs, d.start.value), CategoryText(d.category), d.message))
  }

  function Reports(diags: seq<Diagnostic>, segs: seq<CodeSegment>): (r: seq<Report>)
    ensures |r| <= |diags|
    decreases |diags|
  {
    if diags == [] then []
    else
      var last := ReportFor(diags[|diags| - 1], segs);
      Reports(diags[..|diags| - 1], segs) + (if last.Some? then [last.value] else [])
  }

  /** The diagnostics whose start is defined, in their original order. */
  function Located(diags: seq<Diagnostic>): (r: seq<Diagnostic>)
    ensures |r| <= |diags|
    ensures forall i :: 0 <= i < |r| ==> r[i].start.Some? && r[i] in diags
    ensures forall d :: d in diags && d.start.Some? ==> d in r
    decreases |diags|
  {
    if diags == [] then []
    else
      var init := diags[..|diags| - 1];
      var last := diags[|diags| - 1];
      assert forall d :: d in diags ==> d in init || d == last by {
        assert diags == init + [last];
      }
      Located(init) + (if last.start.Some? then [last] else [])
  }

  /** No diagnostic is kept more often than it was given. */
  lemma {:induction false} LocatedMultiplicity(diags: seq<Diagnostic>)
    ensures multiset(Located(diags)) <= multiset(diags)
    decreases |diags|
  {
    if diags != [] {
      var init := diags[..|diags| - 1];
      LocatedMultiplicity(init);
      assert diags == init + [diags[|diags| - 1]];
    }
  }

  /** Filtering one more diagnostic keeps the earlier ones in their order and
      appends that diagnostic exactly when its start is defined. */
  lemma LocatedNext(diags: seq<Diagnostic>, n: nat)
    requires n < |diags|
    ensures Located(diags[..n + 1]) == Located(diags[..n]) + (if diags[n].start.Some? then [diags[n]] else [])
  {
    assert diags[..n + 1][..n] == diags[..n];
  }

  /** The last diagnostic is filtered and reported after the earlier ones. */
  lemma ReportsLast(diags: seq<Diagnostic>, segs: seq<CodeSegment>)
    requires diags != []
    ensures var init, last := diags[..|diags| - 1], diags[|diags| - 1];
            && Located(diags) == Located(init) + (if last.start.Some? then [last] else [])
            && Reports(diags, segs) == Reports(init, segs) + (if last.start.Some? then [ReportFor(last, segs).value] else [])
  {
  }

  /** Every diagnostic with a defined start yields one report and the others none,
      in order: the reports are those of the located diagnostics, one each. */
  lemma {:induction false} ReportsKeepLocated(diags: seq<Diagnostic>, segs: seq<CodeSegment>)
    ensures |Reports(diags, segs)| == |Located(diags)|
    ensures forall i :: 0 <= i < |Located(diags)| ==> ReportFor(Located(diags)[i], segs) == Some(Reports(diags, segs)[i])
    ensures (forall i :: 0 <= i < |diags| ==> diags[i].start.Some?) ==> |Reports(diags, segs)| == |diags|
    ensures (forall i :: 0 <= i < |diags| ==> diags[i].start.None?) ==> Reports(diags, segs) == []
    decreases |diags|
  {
    if diags != [] {
      var init := diags[..|diags| - 1];
      var last := diags[|diags| - 1];
      ReportsKeepLocated(init, segs);
      ReportsLast(diags, segs);
      var ls, rs := Located(init), Reports(init, segs);
      var l, r := Located(diags), Reports(diags, segs);
      if last.start.Some? {
        forall i | 0 <= i < |l| ensures ReportFor(l[i], segs) == Some(r[i]) {
          if i < |ls| {
            assert l[i] == ls[i] && r[i] == rs[i];
          }
        }
      }
      if forall i :: 0 <= i < |diags| ==> diags[i].start.Some? {
        assert forall i :: 0 <= i < |init| ==> init[i] == diags[i];
      }
      if forall i :: 0 <= i < |diags| ==> diags[i].start.None? {
        assert forall i :: 0 <= i < |init| ==> init[i] == diags[i];
      }
    }
  }

  /** Attribution over what the generator wrote, starting from an empty file:
      an offset in `(start, end]` of segment k gets segment k's tag, so a shared
      boundary goes to the earlier segment; every offset of the text gets a
      handler tag once anything was written; nothing ever gets a graph node id
      unless it happens to equal a handler tag. */
  lemma GeneratedAttribution(nodes: seq<Node>, fuel: nat, counter: nat, offset: nat)
    ensures var st := GenerateSpec(nodes, fuel, GenState([], [], counter)).1;
            && (forall k :: 0 <= k < |st.segments| && st.segments[k].span.start < offset <= st.segments[k].span.end
                  ==> NodeIdAt(st.segments, offset) == st.segments[k].nodeId)
            && (st.segments != [] && offset <= |st.text| ==> IsHandlerTag(NodeIdAt(st.segments, offset)))
            && (IsHandlerTag(NodeIdAt(st.segments, offset)) || NodeIdAt(st.segments, offset) == "unknown")
  {
    var st0 := GenState([], [], counter);
    assert Consistent(st0);
    match FindStart(nodes)
    case None =>
    case Some(k) => ProcessKeepsConsistent(nodes, nodes[k], fuel, st0);
    var st := GenerateSpec(nodes, fuel, st0).1;
    forall k | 0 <= k < |st.segments| && st.segments[k].span.start < offset <= st.segments[k].span.end
      ensures NodeIdAt(st.segments, offset) == st.segments[k].nodeId
    {
      TiledAttribution(Spans(st.segments), 0, |st.text|, k, offset);
    }
    TiledCoverage(Spans(st.segments), 0, |st.text|, offset);
  }

  // ================================================================ classes

  /** `Context`: the output file, the intermediate JSON's nodes and a variable table. */
  class Context {
    const sourceFile: SourceFile
    const nodes: seq<Node>
    var variables: map<string, string>

    constructor (nodes: seq<Node>)
      ensures this.nodes == nodes && fresh(sourceFile) && sourceFile.text == [] && variables == map[]
    {
      this.nodes := nodes;
      sourceFile := new SourceFile();
      variables := map[];
    }

    function GetVariable(key: string): Option<string>
      reads this
    {
      if key in variables then Some(variables[key]) else None
    }

    /** After `setVariable(k, v)`, `getVariable(k)` is `v` and every other key
        reads as before. */
    method SetVariable(key: string, value: string)
      modifies this
      ensures GetVariable(key) == Some(value)
      ensures forall k :: k != key ==> GetVariable(k) == old(GetVariable(k))
    {
      variables := variables[key := value];
    }
  }

  /** `CallLogicNodeHandler.paramCounter`: static, so one counter is shared by all
      generators of a process. */
  class ParamCounter {
    var value: nat

    constructor ()
      ensures value == 0
    {
      value := 0;
    }
  }

  /** One turn of the first `forEach`: take the next name from the counter and
      write the parameter's declaration under it. */
  method DeclareParam(param: Json, counter: ParamCounter) returns (decl: Result<seq<string>, GenError>)
    modifies counter
    ensures counter.value == old(counter.value) + 1
    ensures decl == DeclarationLine(param, ParamName(old(counter.value)))
  {
    var name := ParamName(counter.value);
    counter.value := counter.value + 1;
    decl := DeclarationLine(param, name);
  }

  /** The first `forEach` of the call-logic writer: one declaration per parameter
      that has a value, named after the static counter, which every visit
      advances before converting. */
  method WriteDeclarations(ps: seq<Json>, counter: ParamCounter) returns (r: Result<seq<string>, GenError>)
    modifies counter
    ensures r == Declarations(ps, old(counter.value), |ps|)
    ensures counter.value == CounterAfter(ps, old(counter.value), |ps|)
  {
    ghost var rs := LineResults(ps, counter.value);
    forall k | 0 <= k < |ps|
      ensures DeclaredAt(rs, ps, counter.value, k)
    {
      LineResultsAt(ps, counter.value, k);
    }
    r := CollectDeclarations(ps, counter, rs);
  }

  /** The loop of the first `forEach`, writing the results `rs` in turn until
      the first failure. */
  method CollectDeclarations(ps: seq<Json>, counter: ParamCounter, ghost rs: seq<Result<seq<string>, GenError>>)
    returns (r: Result<seq<string>, GenError>)
    requires |rs| == |ps|
    requires forall k :: 0 <= k < |ps| ==> DeclaredAt(rs, ps, counter.value, k)
    modifies counter
    ensures r == Collect(rs, |ps|)
    ensures counter.value == old(counter.value) + Visited(rs, |ps|)
  {
    ghost var base := counter.value;
    var lines: seq<string> := [];
    var i := 0;
    while i < |ps|
      invariant 0 <= i <= |ps|
      invariant counter.value == base + i
      invariant Collect(rs, i) == Ok(lines)
    {
      assert DeclaredAt(rs, ps, base, i);
      var decl := DeclareParam(ps[i], counter);
      if decl.Err? {
        CollectStopAtFailure(rs, i, |ps|);
        return Err(decl.error);
      }
      CollectNext(rs, i + 1);
      lines := lines + decl.value;
      i := i + 1;
    }
    VisitedBounds(rs, |ps|);
    r := Ok(lines);
  }

  /** The second `forEach`: the entries of the `param` block. */
  method WriteParamEntries(ps: seq<Json>) returns (entries: seq<string>)
    ensures entries == ParamEntries(ps)
  {
    ghost var spec := ParamEntries(ps);
    entries := [];
    var j := 0;
    while j < |ps|
      invariant 0 <= j <= |ps|
      invariant entries == spec[..j]
    {
      var entry := OptText(Prop(ps[j], "key")) + ": " + ParamName(j);
      if j < |ps| - 1 {
        entry := entry + ",";
      }
      assert entry == spec[j];
      assert spec[..j + 1] == spec[..j] + [spec[j]];
      entries := entries + [entry];
      j := j + 1;
    }
    assert spec[..j] == spec;
  }


  /** The writer closure of a call-logic node: declarations, the request
      configuration, and the request call. */
  method WriteCallLogic(props: Json, counter: ParamCounter) returns (r: Result<seq<string>, GenError>)
    modifies counter
    ensures (r, counter.value) == CallLogicEmission(props, old(counter.value))
  {
    var params := ParamList(props);
    if params.Err? {
      return Err(params.error);
    }
    var ps := params.value;
    var decls := WriteDeclarations(ps, counter);
    if decls.Err? {
      return Err(decls.error);
    }
    var entries := WriteParamEntries(ps);
    r := Ok(decls.value + RequestLines(StringOf(Prop(props, "chainId")), entries) + [ResultLine(Prop(props, "result"))]);
  }

  /** `AstTransformer`: applies operations to the source file and records, for
      each, the range between the file's end before and after the write. */
  class AstTransformer {
    const sourceFile: SourceFile
    var segments: seq<CodeSegment>

    constructor (sourceFile: SourceFile)
      ensures this.sourceFile == sourceFile && segments == []
    {
      this.sourceFile := sourceFile;
      segments := [];
    }

    /** An `addStatements` operation appends its text and records a segment from
        the old end to the new end; any other kind throws and records nothing. */
    method ApplyOperation(op: Operation) returns (r: Result<CodeSegment, GenError>)
      modifies this, sourceFile
      ensures r.Ok? <==> op.kind == AddStatementsKind
      ensures r.Ok? ==> sourceFile.text == old(sourceFile.text) + Render(op.lines)
                        && r.value == CodeSegment(op.nodeId, Span(|old(sourceFile.text)|, |sourceFile.text|), op.kind)
                        && segments == old(segments) + [r.value]
      ensures r.Err? ==> r.error == UnknownOperationType(op.kind)
                         && sourceFile.text == old(sourceFile.text) && segments == old(segments)
    {
      var startPos := sourceFile.End();
      if op.kind == AddStatementsKind {
        sourceFile.AddWrittenStatements(op.lines);
      } else {
        return Err(UnknownOperationType(op.kind));
      }
      var segment := CodeSegment(op.nodeId, Span(startPos, sourceFile.End()), op.kind);
      segments := segments + [segment];
      r := Ok(segment);
    }
  }

  /** `CodeGenerator`. */
  class CodeGenerator {
    const context: Context
    const transformer: AstTransformer
    const paramCounter: ParamCounter

    predicate Valid()
    {
      transformer.sourceFile == context.sourceFile
    }

    ghost function State(): GenState
      reads context.sourceFile, transformer, paramCounter
    {
      GenState(context.sourceFile.text, transformer.segments, paramCounter.value)
    }

    constructor (context: Context, paramCounter: ParamCounter)
      ensures this.context == context && this.paramCounter == paramCounter
      ensures fresh(transformer) && transformer.segments == [] && Valid()
    {
      this.context := context;
      this.paramCounter := paramCounter;
      transformer := new AstTransformer(context.sourceFile);
    }

    /** `generate`: throws when there is no start node, otherwise walks from it. */
    method Generate(fuel: nat) returns (r: Outcome<GenError>)
      requires Valid()
      modifies context.sourceFile, transformer, paramCounter
      ensures (r, State()) == GenerateSpec(context.nodes, fuel, old(State()))
    {
      var start := FindStart(context.nodes);
      if start.None? {
        return Fail(StartNodeNotFound);
      }
      r := ProcessNode(context.nodes[start.value], fuel);
    }

    /** The registered handler's `handle`. */
    method Handle(node: Node) returns (r: Result<seq<Operation>, GenError>)
      modifies paramCounter
      ensures (r, paramCounter.value) == HandleSpec(node, old(paramCounter.value))
    {
      var handler := HandlerFor(node.shape);
      if handler.None? {
        return Err(UnknownNodeType(node.shape));
      }
      match handler.value
      case StartHandler =>
        return Ok([]);
      case ChangeVariableHandler =>
        if !ValidChangeVariable(node.data) {
          return Err(InvalidProperties(ChangeVariableHandler));
        }
        return Ok([Operation(AddStatementsKind, ChangeVariableTag, ChangeVariableLines(node.data.value))]);
      case CallLogicHandler =>
        var valid := ValidateCallLogic(node.data);
        if valid.Err? {
          return Err(valid.error);
        }
        if !valid.value {
          return Err(InvalidProperties(CallLogicHandler));
        }
        var lines := WriteCallLogic(node.data.value, paramCounter);
        if lines.Err? {
          return Err(lines.error);
        }
        return Ok([Operation(AddStatementsKind, CallLogicTag, lines.value)]);
    }

    /** The loop of `processNode` over the handler's operations; the first one
        that throws ends it. */
    method ApplyOperations(ops: seq<Operation>) returns (r: Outcome<GenError>)
      requires Valid()
      modifies context.sourceFile, transformer
      ensures (r, State()) == ApplyAll(ops, old(State()))
    {
      var i := 0;
      while i < |ops|
        invariant 0 <= i <= |ops|
        invariant ApplyAll(ops[i..], State()) == ApplyAll(ops, old(State()))
      {
        ghost var before := State();
        var seg := transformer.ApplyOperation(ops[i]);
        if seg.Err? {
          return Fail(seg.error);
        }
        assert ApplySpec(ops[i], before) == Ok(State());
        assert ops[i..][1..] == ops[i + 1..];
        i := i + 1;
      }
      r := Pass;
    }

    /** `processNode`, with the recursion depth bounded by `fuel`. */
    method ProcessNode(node: Node, fuel: nat) returns (r: Outcome<GenError>)
      requires Valid()
      modifies context.sourceFile, transformer, paramCounter
      ensures (r, State()) == Process(context.nodes, node, fuel, old(State()))
      decreases fuel
    {
      if fuel == 0 {
        return Fail(CallStackExhausted);
      }
      var handled := Handle(node);
      if handled.Err? {
        return Fail(handled.error);
      }
      var ops := handled.value;
      assert Process(context.nodes, node, fuel, old(State())) == Proceed(context.nodes, node, fuel, ops, State());
      var applied := ApplyOperations(ops);
      if applied.Fail? {
        return applied;
      }
      if node.next.Some? && node.next.value != "" {
        var next := FindById(context.nodes, node.next.value);
        if next.Some? {
          r := ProcessNode(context.nodes[next.value], fuel - 1);
          return;
        }
      }
      r := Pass;
    }

    /** `getDiagnostics`: one report per diagnostic whose start is defined, naming
        the tag of the first segment whose closed range holds that start. */
    method GetDiagnostics(diagnostics: seq<Diagnostic>) returns (results: seq<Report>)
      ensures results == Reports(diagnostics, transformer.segments)
    {
      var segments := transformer.segments;
      results := [];
      var i := 0;
      while i < |diagnostics|
        invariant 0 <= i <= |diagnostics|
        invariant results == Reports(diagnostics[..i], segments)
      {
        var diagnostic := diagnostics[i];
        if diagnostic.start.Some? {
          var found := FirstCovering(Spans(segments), diagnostic.start.value);
          var nodeId := TagOrUnknown(if found.Some? then Some(segments[found.value].nodeId) else None);
          results := results + [Report(nodeId, CategoryText(diagnostic.category), diagnostic.message)];
        }
        assert diagnostics[..i + 1][..i] == diagnostics[..i];
        i := i + 1;
      }
      assert diagnostics[..i] == diagnostics;
    }

    /** `getGeneratedCode`. */
    function GeneratedCode(): string
      reads context.sourceFile
    {
      context.sourceFile.text
    }
  }
}
