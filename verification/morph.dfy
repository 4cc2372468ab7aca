/** The part of ts-morph the generators touch: a `SourceFile` that statements are
    appended to and whose end offset is read before and after every write. Its
    formatting rules are not modelled; an inserted statement is its own text
    followed by a line break. */
module Morph {
  import opened Basics

  datatype DeclarationKind = Const | Let | Var

  /** One declarator of a variable statement: `name[: type] = initializer`. */
  datatype Declaration = Declaration(name: string, typeAnnotation: Option<string>, initializer: string)

  /** The structure handed to `addVariableStatement`. */
  datatype VariableStatement = VariableStatement(kind: DeclarationKind, declarations: seq<Declaration>)

  function KindKeyword(k: DeclarationKind): string
  {
    match k
    case Const => "const"
    case Let => "let"
    case Var => "var"
  }

  function DeclarationText(d: Declaration): string
  {
    d.name + (if d.typeAnnotation.Some? then ": " + d.typeAnnotation.value else "") + " = " + d.initializer
  }

  function DeclarationTexts(ds: seq<Declaration>): (r: seq<string>)
    ensures |r| == |ds|
    decreases |ds|
  {
    if ds == [] then [] else [DeclarationText(ds[0])] + DeclarationTexts(ds[1..])
  }

  /** The text a variable statement occupies in the file. */
  function StatementText(st: VariableStatement): string
  {
    KindKeyword(st.kind) + " " + Join(DeclarationTexts(st.declarations), ", ") + ";\n"
  }

  /** The text `addStatements(code)` inserts: the code, ended by a line break. */
  function StatementCode(code: string): string
  {
    if code != [] && code[|code| - 1] == '\n' then code else code + "\n"
  }

  /** The text a `CodeBlockWriter` produces from `writeLine` calls (indentation
      is not modelled). */
  function Render(lines: seq<string>): (r: string)
    decreases |lines|
  {
    if lines == [] then [] else lines[0] + "\n" + Render(lines[1..])
  }

  /** The statement the demo `handleNode1` handlers write: `const x = "Hello";`. */
  const XStatement: VariableStatement := VariableStatement(Const, [Declaration("x", None, "\"Hello\"")])

  /** The statement the demo `handleNode2` handlers write, a deliberate type error:
      `const y: number = "World";`. */
  const YStatement: VariableStatement := VariableStatement(Const, [Declaration("y", Some("number"), "\"World\"")])

  /** A ts-morph source file, seen as an append-only character buffer. */
  class SourceFile {
    var text: string

    constructor ()
      ensures text == []
    {
      text := [];
    }

    /** `getEnd()`: the offset just past the last character. */
    function End(): nat
      reads this
    {
      |text|
    }

    /** `getFullText()`. */
    function FullText(): string
      reads this
    {
      text
    }

    method AddStatements(code: string)
      modifies this
      ensures text == old(text) + StatementCode(code)
    {
      text := text + StatementCode(code);
    }

    /** `addStatements(writer)`: the writer's lines, rendered. */
    method AddWrittenStatements(lines: seq<string>)
      modifies this
      ensures text == old(text) + Render(lines)
    {
      text := text + Render(lines);
    }

    method AddVariableStatement(st: VariableStatement)
      modifies this
      ensures text == old(text) + StatementText(st)
    {
      text := text + StatementText(st);
    }
  }
}
