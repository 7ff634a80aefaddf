/**
 * Operator codes of the compiler (src/compiler/op.c, include/compiler/op.h):
 * the mapping from syntax tree node kinds to operator codes, and the
 * spelling used in diagnostics.
 */
module Ops {
  import opened Wrappers
  import Ast

  /** enum gramina_arithmetic_bin_op. */
  datatype ArithOp = ArithAdd | ArithSub | ArithMul | ArithDiv | ArithRem

  /** enum gramina_arithmetic_un_op. */
  datatype UnaryOp = Identity | Negation

  /** enum gramina_comparison_op. */
  datatype CompareOp = CmpEqual | CmpInequal | CmpLt | CmpLte | CmpGt | CmpGte

  /** enum gramina_logical_bin_op. */
  datatype LogicOp = LogicOr | LogicXor | LogicAnd

  /** The operators a node can map to (the assignment operators never are). */
  datatype Operator = Arith(a: ArithOp) | Unary(u: UnaryOp) | Compare(c: CompareOp) | Logic(l: LogicOp)

  /** The numeric value of each enumerator: the enums continue one another's numbering. */
  function Code(op: Operator): (n: int)
    ensures 0 <= n <= 22 && !(7 <= n <= 13)
  {
    match op
    case Arith(ArithAdd) => 0
    case Arith(ArithSub) => 1
    case Arith(ArithMul) => 2
    case Arith(ArithDiv) => 3
    case Arith(ArithRem) => 4
    case Unary(Identity) => 5
    case Unary(Negation) => 6
    case Compare(CmpEqual) => 14
    case Compare(CmpInequal) => 15
    case Compare(CmpLt) => 16
    case Compare(CmpLte) => 17
    case Compare(CmpGt) => 18
    case Compare(CmpGte) => 19
    case Logic(LogicOr) => 20
    case Logic(LogicXor) => 21
    case Logic(LogicAnd) => 22
  }

  /** The operator an operator code stands for, if any. */
  function Decode(n: int): (r: Option<Operator>)
    ensures r.Some? ==> Code(r.value) == n
  {
    if n == 0 then Some(Arith(ArithAdd))
    else if n == 1 then Some(Arith(ArithSub))
    else if n == 2 then Some(Arith(ArithMul))
    else if n == 3 then Some(Arith(ArithDiv))
    else if n == 4 then Some(Arith(ArithRem))
    else if n == 5 then Some(Unary(Identity))
    else if n == 6 then Some(Unary(Negation))
    else if n == 14 then Some(Compare(CmpEqual))
    else if n == 15 then Some(Compare(CmpInequal))
    else if n == 16 then Some(Compare(CmpLt))
    else if n == 17 then Some(Compare(CmpLte))
    else if n == 18 then Some(Compare(CmpGt))
    else if n == 19 then Some(Compare(CmpGte))
    else if n == 20 then Some(Logic(LogicOr))
    else if n == 21 then Some(Logic(LogicXor))
    else if n == 22 then Some(Logic(LogicAnd))
    else None
  }

  /** Distinct operators have distinct codes, and every code decodes back. */
  lemma CodeRoundTrip(op: Operator)
    ensures Decode(Code(op)) == Some(op)
  {
    match op
    case Arith(a) => {}
    case Unary(u) => {}
    case Compare(c) => {}
    case Logic(l) => {}
  }

  /** The node kind the parser produces for each operator. */
  function NodeOf(op: Operator): Ast.NodeType
  {
    match op
    case Arith(ArithAdd) => Ast.OpAdd
    case Arith(ArithSub) => Ast.OpSub
    case Arith(ArithMul) => Ast.OpMul
    case Arith(ArithDiv) => Ast.OpDiv
    case Arith(ArithRem) => Ast.OpRem
    case Unary(Identity) => Ast.OpUnaryPlus
    case Unary(Negation) => Ast.OpUnaryMinus
    case Compare(CmpEqual) => Ast.OpEqual
    case Compare(CmpInequal) => Ast.OpInequal
    case Compare(CmpLt) => Ast.OpLt
    case Compare(CmpLte) => Ast.OpLte
    case Compare(CmpGt) => Ast.OpGt
    case Compare(CmpGte) => Ast.OpGte
    case Logic(LogicOr) => Ast.OpLogicalOr
    case Logic(LogicXor) => Ast.OpLogicalXor
    case Logic(LogicAnd) => Ast.OpLogicalAnd
  }

  /** get_op_from_ast_node: the operator code of a node kind, -1 for any other kind. */
  function GetOpFromAstNode(t: Ast.NodeType): (r: int)
    ensures r == -1 || Decode(r).Some?
  {
    match t
    case OpAdd => 0
    case OpSub => 1
    case OpMul => 2
    case OpDiv => 3
    case OpRem => 4
    case OpUnaryPlus => 5
    case OpUnaryMinus => 6
    case OpEqual => 14
    case OpInequal => 15
    case OpLt => 16
    case OpLte => 17
    case OpGt => 18
    case OpGte => 19
    case OpLogicalOr => 20
    case OpLogicalXor => 21
    case OpLogicalAnd => 22
    case _ => -1
  }

  /** Every operator node maps to its operator's code. */
  lemma NodeCodeAgrees(op: Operator)
    ensures GetOpFromAstNode(NodeOf(op)) == Code(op)
  {
    match op
    case Arith(a) => {}
    case Unary(u) => {}
    case Compare(c) => {}
    case Logic(l) => {}
  }

  /** A code other than -1 names the operator whose node kind it came from. */
  lemma NodeCodeIsExact(t: Ast.NodeType)
    ensures GetOpFromAstNode(t) != -1 ==> NodeOf(Decode(GetOpFromAstNode(t)).value) == t
  {
  }

  /** The alternate operators, assignments and member access are not operator codes. */
  lemma NonOperatorNodes()
    ensures GetOpFromAstNode(Ast.OpAlternateAnd) == -1 && GetOpFromAstNode(Ast.OpAlternateOr) == -1
    ensures GetOpFromAstNode(Ast.OpAlternateXor) == -1 && GetOpFromAstNode(Ast.OpAlternateNot) == -1
    ensures GetOpFromAstNode(Ast.OpLogicalNot) == -1 && GetOpFromAstNode(Ast.OpAssignAdd) == -1
  {
  }

  /** get_arithmetic_bin_op: the operator's symbol, as the diagnostics print it. */
  function ArithSymbol(op: ArithOp): (s: seq<char>)
    ensures |s| == 1
  {
    match op
    case ArithAdd => "+"
    case ArithSub => "-"
    case ArithMul => "*"
    case ArithDiv => "/"
    case ArithRem => "%"
  }

  /** get_comparison_op: the operator's symbol, as the diagnostics print it. */
  function CompareSymbol(op: CompareOp): (s: seq<char>)
    ensures 1 <= |s| <= 2
  {
    match op
    case CmpEqual => "=="
    case CmpInequal => "!="
    case CmpLt => "<"
    case CmpLte => "<="
    case CmpGt => ">"
    case CmpGte => ">="
  }

  /** Distinct operators print distinctly. */
  lemma SymbolsAreDistinct(a: ArithOp, b: ArithOp, c: CompareOp, d: CompareOp)
    ensures ArithSymbol(a) == ArithSymbol(b) <==> a == b
    ensures CompareSymbol(c) == CompareSymbol(d) <==> c == d
  {
  }
}
