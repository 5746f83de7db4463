/** Symbols: the names that a program declares, and what the identifiers in it stand for. */
module Symbols {
  import opened Results
  import opened FrontendTypes
  import opened Ast
  import opened Semantics

  /** The symbols that can be seen from somewhere, with their types. */
  type Names = map<string, FrontendType>

  function FunctionType(f: FunctionDefinition): FrontendType { FrontendType.Function(f.returnType, []) }

  /** The names of all functions; none may be declared twice. */
  function Declare(defs: seq<FunctionDefinition>): Result<Names> {
    if defs == [] then Ok(map[])
    else
      var names :- Declare(defs[..|defs| - 1]);
      var f := defs[|defs| - 1];
      if f.name in names then Err(NameError) else Ok(names[f.name := FunctionType(f)])
  }

  /** The tree with a symbol for every identifier. */
  function ResolveSymbols(e: Expr, names: Names): Result<Expr> {
    match e
    case IntegerLiteral(_, _) => Ok(e)
    case BooleanLiteral(_) => Ok(e)
    case Identifier(name, _, ty) =>
      if name in names then Ok(Identifier(name, Some(names[name]), ty)) else Err(NameError)
    case Binary(op, l, r, ty) =>
      var l' :- ResolveSymbols(l, names);
      var r' :- ResolveSymbols(r, names);
      Ok(Binary(op, l', r', ty))
    case Unary(op, x, ty) =>
      var x' :- ResolveSymbols(x, names);
      Ok(Unary(op, x', ty))
    case Call(callee, ty) =>
      var callee' :- ResolveSymbols(callee, names);
      Ok(Call(callee', ty))
  }

  function ResolveStatement(s: Option<Expr>, names: Names): Result<Option<Expr>> {
    if s.None? then Ok(None)
    else
      var e :- ResolveSymbols(s.value, names);
      Ok(Some(e))
  }

  function ResolveStatements(ss: seq<Option<Expr>>, names: Names): (r: Result<seq<Option<Expr>>>)
    ensures r.Ok? ==> |r.value| == |ss|
  {
    if ss == [] then Ok([])
    else
      var resolved :- ResolveStatements(ss[..|ss| - 1], names);
      var last :- ResolveStatement(ss[|ss| - 1], names);
      Ok(resolved + [last])
  }

  /** A function without parameters declares no names of its own. Its tail is left as it is. */
  function ResolveFunction(f: FunctionDefinition, names: Names): Result<FunctionDefinition> {
    var statements :- ResolveStatements(f.statements, names);
    Ok(f.(statements := statements))
  }

  function ResolveAll(defs: seq<FunctionDefinition>, names: Names): (r: Result<seq<FunctionDefinition>>)
    ensures r.Ok? ==> |r.value| == |defs|
  {
    if defs == [] then Ok([])
    else
      var resolved :- ResolveAll(defs[..|defs| - 1], names);
      var last :- ResolveFunction(defs[|defs| - 1], names);
      Ok(resolved + [last])
  }

  // ---- what is declared --------------------------------------------------------------------

  predicate DistinctNames(defs: seq<FunctionDefinition>) {
    forall j, k :: 0 <= j < k < |defs| ==> defs[j].name != defs[k].name
  }

  /** Some function has this name. */
  predicate Declares(defs: seq<FunctionDefinition>, name: string) {
    exists k :: 0 <= k < |defs| && defs[k].name == name
  }

  lemma DeclaresOneMore(defs: seq<FunctionDefinition>, name: string)
    requires defs != []
    ensures Declares(defs, name) <==> Declares(defs[..|defs| - 1], name) || defs[|defs| - 1].name == name
  {
    var last := |defs| - 1;
    if Declares(defs[..last], name) {
      var k :| 0 <= k < last && defs[..last][k].name == name;
      assert defs[k].name == name;
    }
    if Declares(defs, name) {
      var k :| 0 <= k < |defs| && defs[k].name == name;
      if k < last { assert defs[..last][k].name == name; }
    }
  }

  lemma DistinctOneMore(defs: seq<FunctionDefinition>)
    requires defs != []
    ensures var last := |defs| - 1;
            DistinctNames(defs) <==> DistinctNames(defs[..last]) && !Declares(defs[..last], defs[last].name)
  {
    var last := |defs| - 1;
    forall k | 0 <= k < last
      ensures defs[..last][k] == defs[k]
    {
    }
    if Declares(defs[..last], defs[last].name) {
      var k :| 0 <= k < last && defs[..last][k].name == defs[last].name;
      assert !DistinctNames(defs);
    }
  }

  /** Declaring fails exactly when a name is declared twice; otherwise exactly the names of functions can be
      seen. */
  lemma {:induction false} DeclareIff(defs: seq<FunctionDefinition>)
    ensures Declare(defs) == Err(NameError) || Declare(defs).Ok?
    ensures Declare(defs).Ok? <==> DistinctNames(defs)
    ensures Declare(defs).Ok? ==> forall name :: name in Declare(defs).value <==> Declares(defs, name)
    decreases |defs|
  {
    hide DistinctNames, Declares, FunctionType;
    if defs == [] {
      NothingDeclared();
    } else {
      DeclareIff(defs[..|defs| - 1]);
      DistinctOneMore(defs);
      forall name
        ensures Declares(defs, name) <==> Declares(defs[..|defs| - 1], name) || defs[|defs| - 1].name == name
      {
        DeclaresOneMore(defs, name);
      }
    }
  }

  lemma NothingDeclared()
    ensures DistinctNames([]) && forall name :: !Declares([], name)
  {
  }

  /** Each function is found under its name, with its type. */
  lemma {:induction false} DeclaredType(defs: seq<FunctionDefinition>, k: nat)
    requires Declare(defs).Ok? && k < |defs|
    ensures defs[k].name in Declare(defs).value && Declare(defs).value[defs[k].name] == FunctionType(defs[k])
    decreases |defs|
  {
    hide FunctionType;
    if k < |defs| - 1 {
      DeclaredType(defs[..|defs| - 1], k);
    }
  }

  // ---- what is resolved --------------------------------------------------------------------

  /** Resolution fails, with a name error, exactly when a name that occurs is not declared. It looks at
      identifiers only: a tree without identifiers and calls stays as it is, and no other tree becomes one. */
  lemma {:induction false} ResolveSymbolsIff(e: Expr, names: Names)
    ensures ResolveSymbols(e, names) == Err(NameError) || ResolveSymbols(e, names).Ok?
    ensures ResolveSymbols(e, names).Ok? <==> e.Names() <= names.Keys
    ensures ResolveSymbols(e, names).Ok? ==>
              var e' := ResolveSymbols(e, names).value;
              (e'.Ground() <==> e.Ground()) && (e.Annotated() ==> e'.Annotated()) && Bound(e', names)
    ensures e.Ground() ==> ResolveSymbols(e, names) == Ok(e)
  {
    match e
    case Binary(_, l, r, _) =>
      ResolveSymbolsIff(l, names);
      ResolveSymbolsIff(r, names);
    case Unary(_, x, _) => ResolveSymbolsIff(x, names);
    case Call(x, _) => ResolveSymbolsIff(x, names);
    case _ =>
  }

  lemma {:induction false} ResolveStatementsIff(ss: seq<Option<Expr>>, names: Names)
    ensures ResolveStatements(ss, names) == Err(NameError) || ResolveStatements(ss, names).Ok?
    ensures ResolveStatements(ss, names).Ok? <==> forall i :: 0 <= i < |ss| ==> Visible(ss[i], names)
    ensures ResolveStatements(ss, names).Ok? ==>
              forall i :: 0 <= i < |ss| ==> SameKind(ss[i], ResolveStatements(ss, names).value[i])
    ensures (forall i :: 0 <= i < |ss| ==> GroundStatement(ss[i])) ==> ResolveStatements(ss, names) == Ok(ss)
    decreases |ss|
  {
    hide ResolveStatement, GroundStatement, Visible, SameKind;
    if ss == [] {
    } else {
      ResolveStatementsIff(ss[..|ss| - 1], names);
      ResolveStatementIff(ss[|ss| - 1], names);
      assert ss == ss[..|ss| - 1] + [ss[|ss| - 1]];
    }
  }

  lemma ResolveStatementIff(s: Option<Expr>, names: Names)
    ensures ResolveStatement(s, names) == Err(NameError) || ResolveStatement(s, names).Ok?
    ensures ResolveStatement(s, names).Ok? <==> Visible(s, names)
    ensures ResolveStatement(s, names).Ok? ==> SameKind(s, ResolveStatement(s, names).value)
    ensures GroundStatement(s) ==> ResolveStatement(s, names) == Ok(s)
  {
    hide ResolveSymbols;
    if s.Some? { ResolveSymbolsIff(s.value, names); }
  }

  /** All names in a statement can be seen. */
  predicate Visible(s: Option<Expr>, names: Names) { s.Some? ==> s.value.Names() <= names.Keys }

  predicate SameKind(s: Option<Expr>, s': Option<Expr>) {
    (GroundStatement(s') <==> GroundStatement(s)) && (AnnotatedStatement(s) ==> AnnotatedStatement(s'))
  }

  lemma ResolveFunctionIff(f: FunctionDefinition, names: Names)
    ensures ResolveFunction(f, names) == Err(NameError) || ResolveFunction(f, names).Ok?
    ensures ResolveFunction(f, names).Ok? <==>
              forall i :: 0 <= i < |f.statements| ==> Visible(f.statements[i], names)
    ensures ResolveFunction(f, names).Ok? ==>
              var f' := ResolveFunction(f, names).value;
              (f'.Ground() <==> f.Ground()) && (f.Annotated() ==> f'.Annotated())
    ensures f.Ground() ==> ResolveFunction(f, names) == Ok(f)
  {
    hide ResolveStatements, GroundStatement, AnnotatedStatement, Visible;
    ResolveStatementsIff(f.statements, names);
  }

  lemma {:induction false} ResolveAllIff(defs: seq<FunctionDefinition>, names: Names)
    ensures ResolveAll(defs, names) == Err(NameError) || ResolveAll(defs, names).Ok?
    ensures ResolveAll(defs, names).Ok? <==> forall k :: 0 <= k < |defs| ==> ResolveFunction(defs[k], names).Ok?
    ensures ResolveAll(defs, names).Ok? ==>
              forall k :: 0 <= k < |defs| ==> ResolveFunction(defs[k], names) == Ok(ResolveAll(defs, names).value[k])
    ensures (forall k :: 0 <= k < |defs| ==> defs[k].Ground()) ==> ResolveAll(defs, names) == Ok(defs)
    decreases |defs|
  {
    hide ResolveFunction, FunctionDefinition.Ground;
    if defs == [] {
    } else {
      ResolveAllIff(defs[..|defs| - 1], names);
      ResolveFunctionIff(defs[|defs| - 1], names);
      assert defs == defs[..|defs| - 1] + [defs[|defs| - 1]];
    }
  }

  lemma {:induction false} ResolveAllStops(defs: seq<FunctionDefinition>, k: nat, names: Names, e: Error)
    requires k <= |defs| && ResolveAll(defs[..k], names) == Err(e)
    ensures ResolveAll(defs, names) == Err(e)
    decreases |defs|
  {
    hide ResolveFunction;
    if k == |defs| {
      assert defs[..k] == defs;
    } else {
      assert defs[..|defs| - 1][..k] == defs[..k];
      ResolveAllStops(defs[..|defs| - 1], k, names, e);
    }
  }

  lemma {:induction false} DeclareStops(defs: seq<FunctionDefinition>, k: nat, e: Error)
    requires k <= |defs| && Declare(defs[..k]) == Err(e)
    ensures Declare(defs) == Err(e)
    decreases |defs|
  {
    if k == |defs| {
      assert defs[..k] == defs;
    } else {
      assert defs[..|defs| - 1][..k] == defs[..k];
      DeclareStops(defs[..|defs| - 1], k, e);
    }
  }

  /** Every identifier has its symbol. */
  predicate Bound(e: Expr, names: Names) {
    match e
    case IntegerLiteral(_, _) => true
    case BooleanLiteral(_) => true
    case Identifier(name, symbol, _) => name in names && symbol == Some(names[name])
    case Binary(_, l, r, _) => Bound(l, names) && Bound(r, names)
    case Unary(_, x, _) => Bound(x, names)
    case Call(x, _) => Bound(x, names)
  }

  /** A call of a function has the type that the function declares to return, wherever the function stands. */
  lemma CallHasReturnType(defs: seq<FunctionDefinition>, k: nat)
    requires Declare(defs).Ok? && k < |defs|
    ensures var e := Call(Identifier(defs[k].name, None, FrontendType.Unresolved), FrontendType.Unresolved);
            var resolved := ResolveSymbols(e, Declare(defs).value);
            && resolved.Ok? && ResolveType(resolved.value).Ok?
            && ResolveType(resolved.value).value.Type() == defs[k].returnType
  {
    hide Declare;
    DeclaredType(defs, k);
  }

  // ---- symbol tables -----------------------------------------------------------------------

  /** A table of symbols, inside another one unless it is the table of the whole program. */
  class SymbolScope {
    var symbols: Names
    const parent: SymbolScope?
    /** This table and those around it. */
    ghost const scopes: set<SymbolScope>
    ghost const depth: nat

    ghost predicate Valid()
      reads scopes
      decreases depth
    {
      && this in scopes
      && (parent != null ==>
            parent.scopes <= scopes && this !in parent.scopes && parent.depth < depth && parent.Valid())
    }

    /** What can be seen from here: inner symbols hide outer ones. */
    function Visible(): Names
      requires Valid()
      reads scopes
      decreases depth
    {
      if parent == null then symbols else parent.Visible() + symbols
    }

    constructor (parent: SymbolScope?)
      requires parent != null ==> parent.Valid()
      ensures Valid() && this.parent == parent && symbols == map[]
      ensures fresh(scopes - if parent == null then {} else parent.scopes)
      ensures Visible() == if parent == null then map[] else parent.Visible()
    {
      this.parent, symbols := parent, map[];
      scopes := {this} + if parent == null then {} else parent.scopes;
      depth := if parent == null then 0 else parent.depth + 1;
    }

    /** The type of a symbol, looked for in this table first and then in those around it. */
    method Find(name: string, recursive: bool) returns (t: Option<FrontendType>)
      requires Valid()
      ensures var names := if recursive then Visible() else symbols;
              t == if name in names then Some(names[name]) else None
      decreases depth
    {
      if name in symbols { return Some(symbols[name]); }
      if recursive && parent != null {
        t := parent.Find(name, recursive);
      } else {
        t := None;
      }
    }

    method Add(name: string, t: FrontendType) returns (r: Result<()>)
      modifies this`symbols
      ensures if name in old(symbols) then r == Err(NameError) && symbols == old(symbols)
              else r == Ok(()) && symbols == old(symbols)[name := t]
    {
      if name in symbols { return Err(NameError); }
      symbols := symbols[name := t];
      r := Ok(());
    }
  }
}
