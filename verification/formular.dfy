/** The graph-to-AST emitter of `src/formular.ts`: a logic-flow graph is walked
    node by node and each change-variable, if and switch node becomes one
    TypeScript statement, built as a syntax tree. */
module Formular {
  import opened Basics

  // ------------------------------------------------------------ the graph

  /** The `properties` a change-variable node carries. */
  datatype ChangeProperties = ChangeProperties(key: seq<string>, value: string, valueType: string)

  /** One entry of a switch node's `cases`; `next` is not followed. */
  datatype CaseNode = CaseNode(conditionValue: string, next: string)

  /** A node of the intermediate JSON, with the fields the emitter reads. */
  datatype FlowNode = FlowNode(
    id: string,
    shape: string,
    properties: ChangeProperties,
    conditionValue: string,
    conditionValueType: string,
    trueBranch: string,
    falseBranch: string,
    cases: seq<CaseNode>)

  /** An entry of `vars`: the variable's key and its display name. */
  datatype VarSpec = VarSpec(key: string, name: string)

  datatype IntermediateJson = IntermediateJson(nodes: seq<FlowNode>, vars: seq<VarSpec>)

  const ChangeVariableShape: string := "change-variable-node"
  const IfShape: string := "if-node"
  const SwitchShape: string := "switch-node"
  const ExpressionTag: string := "EXPRESSION"

  // ---------------------------------------------------------- the syntax

  /** The expressions the factory calls build. */
  datatype Expr =
    | Identifier(name: string)
    | StringLiteral(text: string)
    | NewExpr(callee: Expr, args: seq<Expr>)
    | PropertyAccess(target: Expr, member: string)
    | CallExpr(callee: Expr, args: seq<Expr>)

  datatype Modifier = ConstKeyword

  /** The flags of a variable declaration list; the emitter passes `None`. */
  datatype NodeFlags = NoFlags | LetFlag | ConstFlag

  datatype VariableDeclaration = VariableDeclaration(name: string, initializer: Expr)

  datatype Statement =
    | VariableStatement(modifiers: seq<Modifier>, declarations: seq<VariableDeclaration>, flags: NodeFlags)
    | ExpressionStatement(expression: Expr)
    | IfStatement(condition: Expr, thenBlock: seq<Statement>, elseBlock: seq<Statement>)
    | SwitchStatement(expression: Expr, clauses: seq<Clause>)

  datatype Clause =
    | CaseClause(expression: Expr, statements: seq<Statement>)
    | DefaultClause(statements: seq<Statement>)

  // --------------------------------------------------------- the formulas

  /** `FormulaEditor.parse`: a formula holds exactly when it is the text `true`. */
  function Parse(formula: string): bool
  {
    formula == "true"
  }

  /** The expression for a tagged value: an `EXPRESSION` becomes
      `new FormulaEditor().parse("<raw>")`, any other tag the raw text as a string
      literal. */
  function ValueExpression(valueType: string, raw: string): Expr
  {
    if valueType == ExpressionTag then
      CallExpr(PropertyAccess(NewExpr(Identifier("FormulaEditor"), []), "parse"), [StringLiteral(raw)])
    else StringLiteral(raw)
  }

  /** What evaluating an emitted expression yields. */
  datatype Value = StringValue(s: string) | BoolValue(b: bool) | EditorValue | ParseMethod

  /** Evaluation of the emitted expressions, with `FormulaEditor` bound to the
      class above; anything else is not a value. */
  function Eval(e: Expr): Option<Value>
    decreases e
  {
    match e
    case Identifier(_) => None
    case StringLiteral(t) => Some(StringValue(t))
    case NewExpr(callee, args) =>
      if callee == Identifier("FormulaEditor") && args == [] then Some(EditorValue) else None
    case PropertyAccess(target, member) =>
      if member == "parse" && Eval(target) == Some(EditorValue) then Some(ParseMethod) else None
    case CallExpr(callee, args) =>
      if |args| == 1 && Eval(callee) == Some(ParseMethod) then
        match Eval(args[0])
        case Some(StringValue(s)) => Some(BoolValue(Parse(s)))
        case _ => None
      else None
  }

  /** The emitted value expression means what its tag says: an `EXPRESSION`
      evaluates to whether the raw formula is `true`, any other tag to the raw
      text itself. */
  lemma ValueExpressionMeaning(valueType: string, raw: string)
    ensures valueType == ExpressionTag ==> Eval(ValueExpression(valueType, raw)) == Some(BoolValue(raw == "true"))
    ensures valueType != ExpressionTag ==> Eval(ValueExpression(valueType, raw)) == Some(StringValue(raw))
  {
    if valueType == ExpressionTag {
      var editor := NewExpr(Identifier("FormulaEditor"), []);
      assert Eval(editor) == Some(EditorValue);
      assert Eval(PropertyAccess(editor, "parse")) == Some(ParseMethod);
    }
  }

  // ---------------------------------------------------------- the handlers

  /** `console.log("<message>");`. */
  function LogStatement(message: string): Statement
  {
    ExpressionStatement(CallExpr(Identifier("console.log"), [StringLiteral(message)]))
  }

  /** The statement `handleChangeVariableNode` returns: a `const` modifier over a
      declaration list of one variable, named `key[1]`, whose initializer is the
      tagged value; the list itself carries no flags. */
  function ChangeVariableStatement(node: FlowNode): Statement
    requires |node.properties.key| > 1
  {
    var props := node.properties;
    VariableStatement([ConstKeyword], [VariableDeclaration(props.key[1], ValueExpression(props.valueType, props.value))], NoFlags)
  }

  /** `handleIfNode`: the tagged condition and two fixed one-statement blocks. */
  function HandleIfNode(node: FlowNode): Statement
  {
    IfStatement(ValueExpression(node.conditionValueType, node.conditionValue),
                [LogStatement("True branch executed")],
                [LogStatement("False branch executed")])
  }

  /** The clause for one case: its label and the log line naming it. */
  function CaseClauseFor(c: CaseNode): Clause
  {
    CaseClause(StringLiteral(c.conditionValue), [LogStatement("Case " + c.conditionValue + " executed")])
  }

  /** `node.cases.map(...)`. */
  function CaseClauses(cases: seq<CaseNode>): seq<Clause>
    decreases |cases|
  {
    if cases == [] then [] else [CaseClauseFor(cases[0])] + CaseClauses(cases[1..])
  }

  /** `handleSwitchNode`. */
  function HandleSwitchNode(node: FlowNode): Statement
  {
    SwitchStatement(ValueExpression(node.conditionValueType, node.conditionValue), CaseClauses(node.cases))
  }

  /** An if statement always has a then block and an else block, each holding one
      log statement, and its condition means what the condition's tag says; the
      `trueBranch` and `falseBranch` ids play no part. */
  lemma IfNodeShape(node: FlowNode, other: FlowNode)
    ensures var s := HandleIfNode(node);
            && s.IfStatement? && |s.thenBlock| == 1 && |s.elseBlock| == 1
            && s.thenBlock[0] == LogStatement("True branch executed")
            && s.elseBlock[0] == LogStatement("False branch executed")
            && (node.conditionValueType == ExpressionTag ==> Eval(s.condition) == Some(BoolValue(Parse(node.conditionValue))))
            && (node.conditionValueType != ExpressionTag ==> Eval(s.condition) == Some(StringValue(node.conditionValue)))
    ensures other.conditionValue == node.conditionValue && other.conditionValueType == node.conditionValueType ==>
              HandleIfNode(other) == HandleIfNode(node)
  {
    ValueExpressionMeaning(node.conditionValueType, node.conditionValue);
  }

  /** One case clause per case, in input order, each labelled with the case's
      value and logging `Case <value> executed`; there is no default clause. */
  lemma {:induction false} CaseClausesInOrder(cases: seq<CaseNode>)
    ensures |CaseClauses(cases)| == |cases|
    ensures forall i :: 0 <= i < |cases| ==>
              && CaseClauses(cases)[i].CaseClause?
              && CaseClauses(cases)[i].expression == StringLiteral(cases[i].conditionValue)
              && CaseClauses(cases)[i].statements == [LogStatement("Case " + cases[i].conditionValue + " executed")]
    decreases |cases|
  {
    if cases != [] {
      CaseClausesInOrder(cases[1..]);
      forall i | 1 <= i < |cases| ensures CaseClauses(cases)[i] == CaseClauses(cases[1..])[i - 1] {
      }
    }
  }

  /** The switch statement's clauses depend on the case values alone: the cases'
      `next` ids play no part. */
  lemma {:induction false} CaseClausesIgnoreNext(cases: seq<CaseNode>, others: seq<CaseNode>)
    requires |cases| == |others|
    requires forall i :: 0 <= i < |cases| ==> cases[i].conditionValue == others[i].conditionValue
    ensures CaseClauses(cases) == CaseClauses(others)
    decreases |cases|
  {
    if cases != [] {
      CaseClausesIgnoreNext(cases[1..], others[1..]);
    }
  }

  // ----------------------------------------------------------- the context

  /** What the context holds for a name: an input variable's display name, or
      the value expression a change-variable node assigned. */
  datatype Binding = NameOf(name: string) | ValueOf(expr: Expr)

  /** One `setVariable` call. */
  datatype Write = Write(name: string, value: Binding)

  /** The variables after the given `setVariable` calls on an empty context. */
  function Replay(writes: seq<Write>): map<string, Binding>
    decreases |writes|
  {
    if writes == [] then map[]
    else
      var last := writes[|writes| - 1];
      Replay(writes[..|writes| - 1])[last.name := last.value]
  }

  /** The last write wins: a name is bound exactly when some call wrote it, and
      then to the value of the last call that did. */
  lemma {:induction false} LastWriteWins(writes: seq<Write>, name: string, i: nat)
    ensures name in Replay(writes) <==> exists j :: 0 <= j < |writes| && writes[j].name == name
    ensures i < |writes| && writes[i].name == name && (forall j :: i < j < |writes| ==> writes[j].name != name) ==>
              name in Replay(writes) && Replay(writes)[name] == writes[i].value
    decreases |writes|
  {
    if writes != [] {
      var init := writes[..|writes| - 1];
      LastWriteWins(init, name, i);
      forall j | 0 <= j < |init| ensures init[j] == writes[j] {
      }
      if writes[|writes| - 1].name != name {
        assert (exists j :: 0 <= j < |writes| && writes[j].name == name) ==>
               (exists j :: 0 <= j < |init| && init[j].name == name);
      }
    }
  }

  /** Writes made later override earlier ones: after `a` then `b`, a name that
      `b` writes holds what `b` left, and any other name holds what `a` left. For
      a run, whose writes are the input variables followed by the change-variable
      nodes, a node's assignment overrides an input of the same key and an input no
      node reassigns keeps its display name. */
  lemma {:induction false} ReplayAppend(a: seq<Write>, b: seq<Write>, name: string)
    ensures name in Replay(b) ==> name in Replay(a + b) && Replay(a + b)[name] == Replay(b)[name]
    ensures name !in Replay(b) ==>
              && (name in Replay(a + b) <==> name in Replay(a))
              && (name in Replay(a) ==> Replay(a + b)[name] == Replay(a)[name])
    decreases |b|
  {
    if b == [] {
      assert a + b == a;
    } else {
      var init := b[..|b| - 1];
      assert (a + b)[..|a + b| - 1] == a + init;
      ReplayAppend(a, init, name);
    }
  }

  /** `Context`: the variables, set and read by name. */
  class Context {
    var variables: map<string, Binding>

    constructor ()
      ensures variables == map[]
    {
      variables := map[];
    }

    /** `getVariable`; `None` stands for `undefined`. */
    function GetVariable(name: string): Option<Binding>
      reads this
    {
      if name in variables then Some(variables[name]) else None
    }

    /** `setVariable`: afterwards the name reads back the value, and every other
        name reads what it read before. */
    method SetVariable(name: string, value: Binding)
      modifies this
      ensures variables == old(variables)[name := value]
      ensures GetVariable(name) == Some(value)
      ensures forall other :: other != name ==> GetVariable(other) == old(GetVariable(other))
    {
      variables := variables[name := value];
    }
  }

  /** `handleChangeVariableNode`: records the value under the variable's name and
      returns its declaration. */
  method HandleChangeVariableNode(node: FlowNode, context: Context) returns (statement: Statement)
    requires |node.properties.key| > 1
    modifies context
    ensures statement == ChangeVariableStatement(node)
    ensures context.variables == old(context.variables)[node.properties.key[1] := ValueOf(ValueExpression(node.properties.valueType, node.properties.value))]
  {
    var props := node.properties;
    var variableName := props.key[1];
    var valueExpression := ValueExpression(props.valueType, props.value);
    context.SetVariable(variableName, ValueOf(valueExpression));
    statement := VariableStatement([ConstKeyword], [VariableDeclaration(variableName, valueExpression)], NoFlags);
  }

  // -------------------------------------------------------------- the walk

  predicate Handled(node: FlowNode)
  {
    node.shape == ChangeVariableShape || node.shape == IfShape || node.shape == SwitchShape
  }

  /** The graph's change-variable nodes all name a variable in `key[1]`. */
  predicate WellFormed(nodes: seq<FlowNode>)
  {
    forall i :: 0 <= i < |nodes| && nodes[i].shape == ChangeVariableShape ==> |nodes[i].properties.key| > 1
  }

  /** The statement a handled node becomes. */
  function StatementFor(node: FlowNode): Statement
    requires Handled(node)
    requires node.shape == ChangeVariableShape ==> |node.properties.key| > 1
  {
    if node.shape == ChangeVariableShape then ChangeVariableStatement(node)
    else if node.shape == IfShape then HandleIfNode(node)
    else HandleSwitchNode(node)
  }

  /** What one node contributes: its statement, or nothing for another shape. */
  function NodeStatements(node: FlowNode): seq<Statement>
    requires node.shape == ChangeVariableShape ==> |node.properties.key| > 1
  {
    if Handled(node) then [StatementFor(node)] else []
  }

  /** The statements of the walk over `nodes`, in array order. */
  function Emitted(nodes: seq<FlowNode>): seq<Statement>
    requires WellFormed(nodes)
    decreases |nodes|
  {
    if nodes == [] then []
    else
      assert WellFormed(nodes[..|nodes| - 1]) by {
        forall i | 0 <= i < |nodes| - 1 ensures nodes[..|nodes| - 1][i] == nodes[i] {
        }
      }
      Emitted(nodes[..|nodes| - 1]) + NodeStatements(nodes[|nodes| - 1])
  }

  /** The handled nodes, in order. */
  function HandledNodes(nodes: seq<FlowNode>): seq<FlowNode>
    decreases |nodes|
  {
    if nodes == [] then []
    else if Handled(nodes[0]) then [nodes[0]] + HandledNodes(nodes[1..])
    else HandledNodes(nodes[1..])
  }

  /** The walk is the map of `StatementFor` over the handled nodes, in order:
      exactly one statement per change-variable, if or switch node, none for any
      other shape. */
  lemma {:induction false} EmittedFiltersThenMaps(nodes: seq<FlowNode>)
    requires WellFormed(nodes)
    ensures |Emitted(nodes)| == |HandledNodes(nodes)|
    ensures forall i :: 0 <= i < |HandledNodes(nodes)| ==>
              && Handled(HandledNodes(nodes)[i])
              && (HandledNodes(nodes)[i].shape == ChangeVariableShape ==> |HandledNodes(nodes)[i].properties.key| > 1)
              && Emitted(nodes)[i] == StatementFor(HandledNodes(nodes)[i])
    decreases |nodes|
  {
    if nodes != [] {
      var init := nodes[..|nodes| - 1];
      var last := nodes[|nodes| - 1];
      assert WellFormed(init) by {
        forall i | 0 <= i < |init| ensures init[i] == nodes[i] {
        }
      }
      EmittedFiltersThenMaps(init);
      HandledNodesAppend(init, last);
      assert nodes == init + [last];
    }
  }

  lemma {:induction false} HandledNodesAppend(nodes: seq<FlowNode>, node: FlowNode)
    ensures HandledNodes(nodes + [node]) == HandledNodes(nodes) + (if Handled(node) then [node] else [])
    decreases |nodes|
  {
    if nodes == [] {
      assert [node][1..] == [];
    } else {
      assert (nodes + [node])[1..] == nodes[1..] + [node];
      HandledNodesAppend(nodes[1..], node);
    }
  }

  /** The walk over two stretches of nodes is the walk over the first followed by
      the walk over the second. */
  lemma {:induction false} EmittedAppend(a: seq<FlowNode>, b: seq<FlowNode>)
    requires WellFormed(a + b)
    ensures WellFormed(a) && WellFormed(b)
    ensures Emitted(a + b) == Emitted(a) + Emitted(b)
    decreases |b|
  {
    assert WellFormed(a) by {
      forall i | 0 <= i < |a| ensures (a + b)[i] == a[i] {
      }
    }
    assert WellFormed(b) by {
      forall i | 0 <= i < |b| ensures (a + b)[|a| + i] == b[i] {
      }
    }
    if b == [] {
      assert a + b == a;
    } else {
      var init := b[..|b| - 1];
      assert (a + b)[..|a + b| - 1] == a + init;
      EmittedAppend(a, init);
    }
  }

  /** The context write a node makes: one for a change-variable node, none
      otherwise. */
  function NodeWrite(node: FlowNode): seq<Write>
    requires node.shape == ChangeVariableShape ==> |node.properties.key| > 1
  {
    if node.shape == ChangeVariableShape
    then [Write(node.properties.key[1], ValueOf(ValueExpression(node.properties.valueType, node.properties.value)))]
    else []
  }

  /** The context writes the change-variable nodes make, in order. */
  function NodeWrites(nodes: seq<FlowNode>): seq<Write>
    requires WellFormed(nodes)
    decreases |nodes|
  {
    if nodes == [] then []
    else
      assert WellFormed(nodes[..|nodes| - 1]) by {
        forall i | 0 <= i < |nodes| - 1 ensures nodes[..|nodes| - 1][i] == nodes[i] {
        }
      }
      NodeWrites(nodes[..|nodes| - 1]) + NodeWrite(nodes[|nodes| - 1])
  }

  /** The writes that inject the input variables: `key` to `name`, in order. */
  function VarWrites(vars: seq<VarSpec>): seq<Write>
    decreases |vars|
  {
    if vars == [] then [] else VarWrites(vars[..|vars| - 1]) + [Write(vars[|vars| - 1].key, NameOf(vars[|vars| - 1].name))]
  }

  /** The writes of a whole run: every input variable before any node. */
  function Writes(json: IntermediateJson): seq<Write>
    requires WellFormed(json.nodes)
  {
    VarWrites(json.vars) + NodeWrites(json.nodes)
  }

  /** Extending the walked prefix by one node adds that node's statements and
      writes. */
  lemma PrefixStep(nodes: seq<FlowNode>, j: nat)
    requires WellFormed(nodes) && j < |nodes|
    ensures WellFormed(nodes[..j]) && WellFormed(nodes[..j + 1])
    ensures Emitted(nodes[..j + 1]) == Emitted(nodes[..j]) + NodeStatements(nodes[j])
    ensures NodeWrites(nodes[..j + 1]) == NodeWrites(nodes[..j]) + NodeWrite(nodes[j])
  {
    assert nodes[..j + 1][..j] == nodes[..j];
    assert WellFormed(nodes[..j]) by {
      forall i | 0 <= i < j ensures nodes[..j][i] == nodes[i] {
      }
    }
    assert WellFormed(nodes[..j + 1]) by {
      forall i | 0 <= i < j + 1 ensures nodes[..j + 1][i] == nodes[i] {
      }
    }
  }

  /** The first loop of `generateTsCode`: `setVariable(key, name)` for every
      input variable, in order. */
  method InjectVariables(context: Context, vars: seq<VarSpec>)
    requires context.variables == map[]
    modifies context
    ensures context.variables == Replay(VarWrites(vars))
  {
    var i := 0;
    while i < |vars|
      invariant 0 <= i <= |vars|
      invariant context.variables == Replay(VarWrites(vars[..i]))
    {
      assert vars[..i + 1][..i] == vars[..i];
      context.SetVariable(vars[i].key, NameOf(vars[i].name));
      i := i + 1;
    }
    assert vars[..i] == vars;
  }

  /** The body of the second loop for one node: the handler its shape selects,
      or nothing for another shape. */
  method VisitNode(context: Context, node: FlowNode, ghost before: seq<Write>) returns (out: seq<Statement>)
    requires node.shape == ChangeVariableShape ==> |node.properties.key| > 1
    requires context.variables == Replay(before)
    modifies context
    ensures out == NodeStatements(node)
    ensures context.variables == Replay(before + NodeWrite(node))
  {
    if node.shape == ChangeVariableShape {
      var statement := HandleChangeVariableNode(node, context);
      out := [statement];
      assert (before + NodeWrite(node))[..|before|] == before;
    } else if node.shape == IfShape {
      out := [HandleIfNode(node)];
      assert before + NodeWrite(node) == before;
    } else if node.shape == SwitchShape {
      out := [HandleSwitchNode(node)];
      assert before + NodeWrite(node) == before;
    } else {
      out := [];
      assert before + NodeWrite(node) == before;
    }
  }

  lemma AppendAssoc<X>(a: seq<X>, b: seq<X>, c: seq<X>)
    ensures a + (b + c) == (a + b) + c
  {
  }

  /** The second loop of `generateTsCode`: each node in array order. */
  method WalkNodes(context: Context, nodes: seq<FlowNode>, ghost before: seq<Write>) returns (statements: seq<Statement>)
    requires WellFormed(nodes)
    requires context.variables == Replay(before)
    modifies context
    ensures statements == Emitted(nodes)
    ensures context.variables == Replay(before + NodeWrites(nodes))
  {
    statements := [];
    var j := 0;
    ghost var writes := before;
    assert nodes[..0] == [];
    assert before + NodeWrites(nodes[..0]) == before;
    while j < |nodes|
      invariant 0 <= j <= |nodes|
      invariant WellFormed(nodes[..j])
      invariant statements == Emitted(nodes[..j])
      invariant writes == before + NodeWrites(nodes[..j])
      invariant context.variables == Replay(writes)
    {
      PrefixStep(nodes, j);
      var out := VisitNode(context, nodes[j], writes);
      statements := statements + out;
      AppendAssoc(before, NodeWrites(nodes[..j]), NodeWrite(nodes[j]));
      writes := writes + NodeWrite(nodes[j]);
      j := j + 1;
    }
    assert nodes[..j] == nodes;
  }

  /** `generateTsCode`: injects the input variables, then walks the nodes in
      array order. The source keeps the context local; it is returned here so
      that its final state can be stated. */
  method GenerateTsCode(json: IntermediateJson) returns (statements: seq<Statement>, context: Context)
    requires WellFormed(json.nodes)
    ensures fresh(context)
    ensures statements == Emitted(json.nodes)
    ensures context.variables == Replay(Writes(json))
  {
    context := new Context();
    InjectVariables(context, json.vars);
    statements := WalkNodes(context, json.nodes, VarWrites(json.vars));
  }
}
