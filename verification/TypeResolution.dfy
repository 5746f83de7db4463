/** Symbol and type resolution as they work: they write the symbol and the type of each node into the node. */
module TypeResolution {
  import opened Words
  import opened Results
  import opened FrontendTypes
  import opened Ast
  import opened Semantics
  import opened Symbols

  datatype Shape =
    | IntegerShape(raw: Word)
    | BooleanShape(value: bool)
    | IdentifierShape(name: string)
    | BinaryShape(op: BinaryOperation, left: Node, right: Node)
    | UnaryShape(uop: UnaryOperation, operand: Node)
    | CallShape(callee: Node)

  /** A node of an expression tree. Only its symbol and its type ever change. */
  class Node {
    const shape: Shape
    var ty: FrontendType
    /** What an identifier refers to; other nodes have none. */
    var symbol: Option<FrontendType>
    /** This node and all nodes below it. */
    ghost const nodes: set<Node>
    ghost const height: nat

    /** A tree: no node occurs twice. */
    ghost predicate Valid()
      reads nodes
      decreases height
    {
      this in nodes &&
      match shape
      case IntegerShape(_) => true
      case BooleanShape(_) => ty == FrontendType.Bool
      case IdentifierShape(_) => true
      case BinaryShape(_, l, r) => Above(l) && Above(r) && l.nodes !! r.nodes && l.Valid() && r.Valid()
      case UnaryShape(_, x) => Above(x) && x.Valid()
      case CallShape(c) => Above(c) && c.Valid()
    }

    ghost predicate Above(n: Node) { n.nodes <= nodes && this !in n.nodes && n.height < height }

    /** The tree as a value. */
    ghost function Tree(): (e: Expr)
      requires Valid()
      reads nodes
      ensures e.Type() == ty
      decreases height
    {
      match shape
      case IntegerShape(raw) => IntegerLiteral(raw, ty)
      case BooleanShape(b) => BooleanLiteral(b)
      case IdentifierShape(name) => Identifier(name, symbol, ty)
      case BinaryShape(op, l, r) => Expr.Binary(op, l.Tree(), r.Tree(), ty)
      case UnaryShape(op, x) => Expr.Unary(op, x.Tree(), ty)
      case CallShape(c) => Expr.Call(c.Tree(), ty)
    }

    /** A leaf: a literal with its annotation, or an identifier without a type. */
    constructor Leaf(shape: Shape, ty: FrontendType)
      requires !shape.BinaryShape? && !shape.UnaryShape? && !shape.CallShape?
      requires shape.BooleanShape? ==> ty == FrontendType.Bool
      ensures this.shape == shape && this.ty == ty && symbol == None && Valid() && fresh(nodes)
    {
      this.shape, this.ty, symbol := shape, ty, None;
      nodes, height := {this}, 0;
    }

    constructor Binary(op: BinaryOperation, left: Node, right: Node)
      requires left.Valid() && right.Valid() && left.nodes !! right.nodes
      ensures Valid() && Tree() == Expr.Binary(op, left.Tree(), right.Tree(), FrontendType.Unresolved)
      ensures fresh(nodes - left.nodes - right.nodes)
    {
      shape, ty, symbol := BinaryShape(op, left, right), FrontendType.Unresolved, None;
      nodes, height := {this} + left.nodes + right.nodes, left.height + right.height + 1;
    }

    constructor Unary(op: UnaryOperation, operand: Node)
      requires operand.Valid()
      ensures Valid() && Tree() == Expr.Unary(op, operand.Tree(), FrontendType.Unresolved)
      ensures fresh(nodes - operand.nodes)
    {
      shape, ty, symbol := UnaryShape(op, operand), FrontendType.Unresolved, None;
      nodes, height := {this} + operand.nodes, operand.height + 1;
    }

    constructor Call(callee: Node)
      requires callee.Valid()
      ensures Valid() && Tree() == Expr.Call(callee.Tree(), FrontendType.Unresolved)
      ensures fresh(nodes - callee.nodes)
    {
      shape, ty, symbol := CallShape(callee), FrontendType.Unresolved, None;
      nodes, height := {this} + callee.nodes, callee.height + 1;
    }

    /** Looks up the identifiers of the tree, or stops at the first one that is not declared. */
    method ResolveSymbols(scope: SymbolScope) returns (r: Result<()>)
      requires Valid() && scope.Valid()
      modifies nodes
      ensures Valid()
      ensures match Symbols.ResolveSymbols(old(Tree()), scope.Visible())
              case Ok(t) => r == Ok(()) && Tree() == t
              case Err(e) => r == Err(e)
      decreases height
    {
      hide SymbolScope.Visible, SymbolScope.Valid;
      match shape
      case IntegerShape(_) => r := Ok(());
      case BooleanShape(_) => r := Ok(());
      case IdentifierShape(name) =>
        symbol := scope.Find(name, true);
        r := if symbol.None? then Err(NameError) else Ok(());
      case BinaryShape(_, left, right) =>
        r := left.ResolveSymbols(scope);
        if r.Err? { return; }
        r := right.ResolveSymbols(scope);
      case UnaryShape(_, operand) =>
        r := operand.ResolveSymbols(scope);
      case CallShape(callee) =>
        r := callee.ResolveSymbols(scope);
    }

    /** Fills in the types of the tree, or stops at the first type error. */
    method ResolveType() returns (r: Result<()>)
      requires Valid()
      modifies nodes
      ensures Valid()
      ensures match Semantics.ResolveType(old(Tree()))
              case Ok(t) => r == Ok(()) && Tree() == t
              case Err(e) => r == Err(e)
      decreases height
    {
      hide CheckBinary, CheckUnary;
      match shape
      case IntegerShape(_) => r := Ok(());
      case BooleanShape(_) => r := Ok(());
      case IdentifierShape(_) =>
        if symbol.None? { return Err(UncaughtError); }
        ty := symbol.value;
        r := Ok(());
      case BinaryShape(op, left, right) =>
        r := left.ResolveType();
        if r.Err? { return; }
        r := right.ResolveType();
        if r.Err? { return; }
        var checked := CheckBinary(op, left.ty, right.ty);
        if checked.Err? { return Err(checked.error); }
        ty := checked.value;
      case UnaryShape(op, operand) =>
        r := operand.ResolveType();
        if r.Err? { return; }
        var checked := CheckUnary(op, operand.ty);
        if checked.Err? { return Err(checked.error); }
        ty := checked.value;
      case CallShape(callee) =>
        r := callee.ResolveType();
        if r.Err? { return; }
        if !callee.ty.Function? { return Err(TypeError); }
        ty := callee.ty.returnType;
    }
  }

  /** The check of a return statement inside a function with this return type. */
  method CheckReturnStatement(e: Node?, returnType: Option<FrontendType>) returns (r: Result<()>)
    requires e != null ==> e.Valid()
    modifies if e == null then {} else e.nodes
    ensures e != null ==> e.Valid()
    ensures returnType.None? ==>
              r == Err(if e != null && Semantics.ResolveType(old(e.Tree())).Err?
                       then Semantics.ResolveType(old(e.Tree())).error else InternalError)
    ensures e == null && returnType.Some? ==> r == if returnType.value.Void? then Ok(()) else Err(TypeError)
    ensures e != null && returnType.Some? ==>
              match CheckReturn(old(e.Tree()), returnType.value)
              case Ok(t) => r == Ok(()) && e.Tree() == t
              case Err(error) => r == Err(error)
  {
    var found := FrontendType.Void;
    if e != null {
      r := e.ResolveType();
      if r.Err? { return; }
      found := e.ty;
    }
    if returnType.None? { return Err(InternalError); }
    r := if found != returnType.value then Err(TypeError) else Ok(());
  }
}
