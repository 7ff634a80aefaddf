/**
 * Syntax tree nodes (src/parser/ast.c, include/parser/ast.h).
 *
 * `AstNode` is the heap node the source links by pointers; `Ast` is the same
 * tree as a value, which the parser model builds.
 */
module Ast {
  import opened Wrappers
  import opened Attributes
  import Token

  /** enum gramina_ast_node_type, in declaration order. */
  datatype NodeType =
    | InvalidNode | ValChar | ValString | ValF32 | ValF64 | ValI32 | ValU32 | ValI64
    | ValU64 | ValBool | TypeSlice | TypeArray | TypePointer | ControlFlow | GlobalStatement
    | ExpressionStatement | DeclarationStatement | ReturnStatement | IfStatement
    | ForStatement | WhileStatement | ElseClause | ElseIfClause | ParamList | ExpressionList
    | Slice | Reflect | FunctionType | FunctionDef | FunctionDeclaration
    | FunctionDescription | StructDef | StructField | Identifier | OpCast | OpStaticMember
    | OpProperty | OpMember | OpCall | OpSubscript | OpSlice | OpEval | OpRethrow | OpConcat
    | OpUnaryPlus | OpUnaryMinus | OpLogicalNot | OpDeref | OpAddressOf | OpAlternateNot
    | OpMul | OpDiv | OpRem | OpAdd | OpSub | OpLshift | OpRshift | OpInsert | OpExtract
    | OpLt | OpLte | OpGt | OpGte | OpEqual | OpInequal | OpLogicalAnd | OpLogicalXor
    | OpLogicalOr | OpAlternateAnd | OpAlternateXor | OpAlternateOr | OpFallback | OpAssign
    | OpAssignAdd | OpAssignSub | OpAssignMul | OpAssignDiv | OpAssignRem | OpAssignCat

  /**
   * The enum identifier of each node type without its GRAMINA_AST_ prefix;
   * no identifier has both the length and the final letter of UNKNOWN.
   */
  function NodeTypeName(t: NodeType): (s: seq<char>)
    ensures |s| >= 3
    ensures |s| != 7 || s[6] != 'N'
  {
    match t
    case InvalidNode => "INVALID"
    case ValChar => "VAL_CHAR"
    case ValString => "VAL_STRING"
    case ValF32 => "VAL_F32"
    case ValF64 => "VAL_F64"
    case ValI32 => "VAL_I32"
    case ValU32 => "VAL_U32"
    case ValI64 => "VAL_I64"
    case ValU64 => "VAL_U64"
    case ValBool => "VAL_BOOL"
    case TypeSlice => "TYPE_SLICE"
    case TypeArray => "TYPE_ARRAY"
    case TypePointer => "TYPE_POINTER"
    case ControlFlow => "CONTROL_FLOW"
    case GlobalStatement => "GLOBAL_STATEMENT"
    case ExpressionStatement => "EXPRESSION_STATEMENT"
    case DeclarationStatement => "DECLARATION_STATEMENT"
    case ReturnStatement => "RETURN_STATEMENT"
    case IfStatement => "IF_STATEMENT"
    case ForStatement => "FOR_STATEMENT"
    case WhileStatement => "WHILE_STATEMENT"
    case ElseClause => "ELSE_CLAUSE"
    case ElseIfClause => "ELSE_IF_CLAUSE"
    case ParamList => "PARAM_LIST"
    case ExpressionList => "EXPRESSION_LIST"
    case Slice => "SLICE"
    case Reflect => "REFLECT"
    case FunctionType => "FUNCTION_TYPE"
    case FunctionDef => "FUNCTION_DEF"
    case FunctionDeclaration => "FUNCTION_DECLARATION"
    case FunctionDescription => "FUNCTION_DESCRIPTION"
    case StructDef => "STRUCT_DEF"
    case StructField => "STRUCT_FIELD"
    case Identifier => "IDENTIFIER"
    case OpCast => "OP_CAST"
    case OpStaticMember => "OP_STATIC_MEMBER"
    case OpProperty => "OP_PROPERTY"
    case OpMember => "OP_MEMBER"
    case OpCall => "OP_CALL"
    case OpSubscript => "OP_SUBSCRIPT"
    case OpSlice => "OP_SLICE"
    case OpEval => "OP_EVAL"
    case OpRethrow => "OP_RETHROW"
    case OpConcat => "OP_CONCAT"
    case OpUnaryPlus => "OP_UNARY_PLUS"
    case OpUnaryMinus => "OP_UNARY_MINUS"
    case OpLogicalNot => "OP_LOGICAL_NOT"
    case OpDeref => "OP_DEREF"
    case OpAddressOf => "OP_ADDRESS_OF"
    case OpAlternateNot => "OP_ALTERNATE_NOT"
    case OpMul => "OP_MUL"
    case OpDiv => "OP_DIV"
    case OpRem => "OP_REM"
    case OpAdd => "OP_ADD"
    case OpSub => "OP_SUB"
    case OpLshift => "OP_LSHIFT"
    case OpRshift => "OP_RSHIFT"
    case OpInsert => "OP_INSERT"
    case OpExtract => "OP_EXTRACT"
    case OpLt => "OP_LT"
    case OpLte => "OP_LTE"
    case OpGt => "OP_GT"
    case OpGte => "OP_GTE"
    case OpEqual => "OP_EQUAL"
    case OpInequal => "OP_INEQUAL"
    case OpLogicalAnd => "OP_LOGICAL_AND"
    case OpLogicalXor => "OP_LOGICAL_XOR"
    case OpLogicalOr => "OP_LOGICAL_OR"
    case OpAlternateAnd => "OP_ALTERNATE_AND"
    case OpAlternateXor => "OP_ALTERNATE_XOR"
    case OpAlternateOr => "OP_ALTERNATE_OR"
    case OpFallback => "OP_FALLBACK"
    case OpAssign => "OP_ASSIGN"
    case OpAssignAdd => "OP_ASSIGN_ADD"
    case OpAssignSub => "OP_ASSIGN_SUB"
    case OpAssignMul => "OP_ASSIGN_MUL"
    case OpAssignDiv => "OP_ASSIGN_DIV"
    case OpAssignRem => "OP_ASSIGN_REM"
    case OpAssignCat => "OP_ASSIGN_CAT"
  }

  /** The enum members by their numeric value. */
  const NodeTypes: seq<NodeType> :=
    [InvalidNode, ValChar, ValString, ValF32, ValF64, ValI32, ValU32, ValI64, ValU64,
     ValBool, TypeSlice, TypeArray, TypePointer, ControlFlow, GlobalStatement, ExpressionStatement,
     DeclarationStatement, ReturnStatement, IfStatement, ForStatement, WhileStatement,
     ElseClause, ElseIfClause, ParamList, ExpressionList, Slice, Reflect, FunctionType,
     FunctionDef, FunctionDeclaration, FunctionDescription, StructDef, StructField, Identifier,
     OpCast, OpStaticMember, OpProperty, OpMember, OpCall, OpSubscript, OpSlice, OpEval,
     OpRethrow, OpConcat, OpUnaryPlus, OpUnaryMinus, OpLogicalNot, OpDeref, OpAddressOf,
     OpAlternateNot, OpMul, OpDiv, OpRem, OpAdd, OpSub, OpLshift, OpRshift, OpInsert,
     OpExtract, OpLt, OpLte, OpGt, OpGte, OpEqual, OpInequal, OpLogicalAnd, OpLogicalXor,
     OpLogicalOr, OpAlternateAnd, OpAlternateXor, OpAlternateOr, OpFallback, OpAssign,
     OpAssignAdd, OpAssignSub, OpAssignMul, OpAssignDiv, OpAssignRem, OpAssignCat]

  /** ast_node_type_to_str on a numeric enum value: its name, or UNKNOWN when no member has it. */
  function NodeTypeToStr(code: int): (s: seq<char>)
  {
    if 0 <= code < |NodeTypes| then NodeTypeName(NodeTypes[code]) else "UNKNOWN"
  }

  /** Only values outside the enum print as UNKNOWN. */
  lemma NodeTypeToStrUnknown(code: int)
    ensures NodeTypeToStr(code) == "UNKNOWN" <==> !(0 <= code < 79)
  {
    if 0 <= code < |NodeTypes| {
      NoNameIsUnknown(NodeTypes[code]);
    }
  }

  lemma NoNameIsUnknown(t: NodeType)
    ensures NodeTypeName(t) != "UNKNOWN"
  {
    var s := NodeTypeName(t);
    assert s[|s| - 1] != "UNKNOWN"[6] || |s| != 7;
  }

  /**
   * union gramina_ast_node_value, with the members the model uses kept
   * apart: a number (integer literals, array lengths, booleans as 0/1), an
   * identifier and the attribute list of declarations.
   */
  datatype NodeValue = NodeValue(number: int, identifier: seq<char>, attributes: seq<SymAttr>)

  const ZeroValue := NodeValue(0, [], [])

  /** The node kinds whose value carries attributes. */
  predicate HasSymattrs(t: NodeType)
  {
    t.Identifier? || t.FunctionDef? || t.FunctionDeclaration? || t.StructDef?
  }

  /**
   * A syntax tree as a value; Nil is a NULL child. `constType` is the
   * CONST_TYPE bit of the node's flags, the only flag the parser sets.
   */
  datatype Ast =
    | Nil
    | Node(typ: NodeType, pos: Token.Position, constType: bool, value: NodeValue, left: Ast, right: Ast)

  /** The value ast_node_free leaves in a node of kind t. */
  function FreedValue(t: NodeType, v: NodeValue): (r: NodeValue)
    ensures HasSymattrs(t) ==> r.attributes == []
    ensures t.Identifier? || t.FunctionDef? || t.FunctionDeclaration? ==> r.identifier == []
    ensures !HasSymattrs(t) ==> r == v
  {
    if t.Identifier? || t.FunctionDef? || t.FunctionDeclaration? then v.(identifier := [], attributes := [])
    else if t.StructDef? then v.(attributes := [])
    else v
  }

  /** struct gramina_ast_node. */
  class AstNode {
    var typ: NodeType
    var pos: Token.Position
    var value: NodeValue
    var parent: AstNode?
    var left: AstNode?
    var right: AstNode?

    /** Set once ast_node_free has released the node. */
    ghost var freed: bool
    /** The nodes of the subtree rooted here. */
    ghost var Repr: set<AstNode>

    /** The subtree is a finite tree: this node plus the disjoint subtrees of its children. */
    ghost predicate Tree()
      reads this, Repr
      decreases Repr
    {
      this in Repr
      && (left != null ==>
            left in Repr && left.Repr <= Repr && this !in left.Repr && left.Tree())
      && (right != null ==>
            right in Repr && right.Repr <= Repr && this !in right.Repr && right.Tree())
      && (left != null && right != null ==> left.Repr !! right.Repr)
      && Repr == {this} + (if left != null then left.Repr else {})
                        + (if right != null then right.Repr else {})
    }

    /** A detached node; its type and position stand for the bytes malloc leaves. */
    constructor Detached(parent: AstNode?)
      ensures this.parent == parent && left == null && right == null && value == ZeroValue
      ensures typ == InvalidNode && pos == Token.Position(0, 0, 0)
      ensures Repr == {this} && !freed
    {
      this.parent := parent;
      left := null;
      right := null;
      value := ZeroValue;
      typ := InvalidNode;
      pos := Token.Position(0, 0, 0);
      Repr := {this};
      freed := false;
    }
  }

  /**
   * mk_ast_node: a fresh node with no children and a zeroed value, attached
   * to the parent's left slot when that is empty and otherwise to its right
   * slot (which the source asserts is empty).
   */
  method MkAstNode(parent: AstNode?) returns (n: AstNode)
    requires parent != null && parent.left != null ==> parent.right == null
    modifies parent
    ensures fresh(n) && n.parent == parent && n.left == null && n.right == null && n.value == ZeroValue
    ensures parent != null && old(parent.left) == null ==> parent.left == n && parent.right == old(parent.right)
    ensures parent != null && old(parent.left) != null ==> parent.left == old(parent.left) && parent.right == n
    ensures parent != null ==> parent.value == old(parent.value) && parent.parent == old(parent.parent)
  {
    n := new AstNode.Detached(parent);
    if parent != null {
      if parent.left == null {
        parent.left := n;
      } else {
        parent.right := n;
      }
    }
  }

  /**
   * mk_ast_node_lr: like mk_ast_node, but with l and r installed as the new
   * node's children, each non-NULL child re-parented to it.
   */
  method MkAstNodeLr(parent: AstNode?, l: AstNode?, r: AstNode?) returns (n: AstNode)
    requires parent != null && parent.left != null ==> parent.right == null
    modifies parent, l, r
    ensures fresh(n) && n.parent == parent && n.left == l && n.right == r && n.value == ZeroValue
    ensures l != null ==> l.parent == n
    ensures r != null ==> r.parent == n
    ensures parent != null && old(parent.left) == null ==> parent.left == n
    ensures parent != null && old(parent.left) != null ==> parent.right == n
  {
    n := MkAstNode(parent);
    n.left := l;
    n.right := r;
    n.value := ZeroValue;
    if l != null {
      l.parent := n;
    }
    if r != null {
      r.parent := n;
    }
  }

  /** ast_node_child_l: replaces the left child; the old child is neither freed nor unlinked. */
  method ChildL(this_: AstNode, newChild: AstNode?)
    modifies this_, newChild
    ensures this_.left == newChild && this_.right == old(this_.right)
    ensures newChild != null ==> newChild.parent == this_
    ensures newChild != this_ ==> this_.parent == old(this_.parent)
  {
    this_.left := newChild;
    if newChild != null {
      newChild.parent := this_;
    }
  }

  /** ast_node_child_r: replaces the right child; the old child is neither freed nor unlinked. */
  method ChildR(this_: AstNode, newChild: AstNode?)
    modifies this_, newChild
    ensures this_.right == newChild && this_.left == old(this_.left)
    ensures newChild != null ==> newChild.parent == this_
    ensures newChild != this_ ==> this_.parent == old(this_.parent)
  {
    this_.right := newChild;
    if newChild != null {
      newChild.parent := this_;
    }
  }

  /**
   * ast_node_get_symattr: for identifiers, function definitions and
   * declarations and struct definitions, the index of the first attribute
   * of the requested kind; None otherwise.
   */
  method GetSymattr(n: AstNode, kind: SymAttrKind) returns (r: Option<nat>)
    ensures !HasSymattrs(n.typ) ==> r == None
    ensures r.Some? ==> r.value < |n.value.attributes| && n.value.attributes[r.value].kind == kind
    ensures r.Some? ==> forall j :: 0 <= j < r.value ==> n.value.attributes[j].kind != kind
    ensures r.None? && HasSymattrs(n.typ) ==>
              forall j :: 0 <= j < |n.value.attributes| ==> n.value.attributes[j].kind != kind
  {
    if !HasSymattrs(n.typ) {
      return None;
    }
    var attrs := n.value.attributes;
    var i := 0;
    while i < |attrs|
      invariant 0 <= i <= |attrs|
      invariant forall j :: 0 <= j < i ==> attrs[j].kind != kind
    {
      if attrs[i].kind == kind {
        return Some(i);
      }
      i := i + 1;
    }
    return None;
  }

  /** What ast_node_free leaves of a node that had kind t and value v. */
  ghost predicate Released(m: AstNode, t: NodeType, v: NodeValue)
    reads m
  {
    m.freed && m.left == null && m.right == null && m.parent == null && m.typ == t
    && m.value == FreedValue(t, v)
  }

  /**
   * ast_node_free: releases the node's identifier and attributes (by kind),
   * then both subtrees, then unlinks and frees the node itself.
   */
  method AstNodeFree(n: AstNode?)
    requires n != null ==> n.Tree()
    modifies if n == null then {} else n.Repr
    ensures n != null ==> forall m :: m in old(n.Repr) ==> Released(m, old(m.typ), old(m.value))
    decreases if n == null then {} else n.Repr
  {
    if n == null {
      return;
    }
    var l, r := n.left, n.right;
    ghost var lr := if l == null then {} else l.Repr;
    ghost var rr := if r == null then {} else r.Repr;
    assert n.Repr == {n} + lr + rr && n !in lr && n !in rr && lr !! rr;
    n.value := FreedValue(n.typ, n.value);
    AstNodeFree(l);
    AstNodeFree(r);
    n.left, n.right, n.parent, n.freed := null, null, null, true;
  }
}
