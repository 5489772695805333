/** The generator as it runs: one object whose symbol table, stack of update tables and current
    block change while it walks the syntax tree. Each method is proved against the functions of
    `SsaGen`, about which the simulation theorem speaks. */
module SsaGenerator {
  import opened SsaGen

  lemma Reassociate(a: seq<Inst>, b: seq<Inst>, c: seq<Inst>, d: seq<Inst>)
    ensures a + b + c + d == a + (b + (c + d))
    ensures a + b + c == a + (b + c)
  {}

  ghost predicate SameButUpdates(a: Result, b: Result) { a.ctx == b.ctx && a.sym == b.sym && a.code == b.code }

  lemma StoreUpdates(ctx: Ctx, types: Types, sym: Table, u: Table, w: Table, x: Name, lhs: Id, rhs: Id)
    ensures SameButUpdates(GenStore(ctx, types, sym, u, x, lhs, rhs), GenStore(ctx, types, sym, w, x, lhs, rhs))
  {}

  /** The outer update table has no influence on the code that is generated. */
  lemma {:induction false} UpdatesDoNotMatter(ctx: Ctx, types: Types, sym: Table, u: Table, w: Table, s: Stmt)
    ensures SameButUpdates(GenStmt(ctx, types, sym, u, s), GenStmt(ctx, types, sym, w, s))
  {
    match s
    case Assign(x, e) =>
      var r := GenExpr(ctx, sym, e);
      StoreUpdates(r.ctx, types, sym, u, w, x, Lookup(sym, x), r.id);
    case AssignField(x, i, e) =>
      var l := GenAccess(ctx, Lookup(sym, x), i);
      var r := GenExpr(l.ctx, sym, e);
      StoreUpdates(r.ctx, types, sym, u, w, x, l.id, r.id);
    case If(_, _, _, _) =>
  }

  lemma {:induction false} GenSnoc(ctx: Ctx, types: Types, sym: Table, upd: Table, ss: seq<Stmt>, s: Stmt)
    ensures var a := Gen(ctx, types, sym, upd, ss);
            var b := GenStmt(a.ctx, types, a.sym, a.upd, s);
            Gen(ctx, types, sym, upd, ss + [s]) == b.(code := a.code + b.code)
    decreases |ss|
  {
    if ss == [] {
      assert (ss + [s])[1..] == [];
      var b := GenStmt(ctx, types, sym, upd, s);
      assert b.code + [] == [] + b.code == b.code;
    } else {
      assert (ss + [s])[1..] == ss[1..] + [s];
      var f := GenStmt(ctx, types, sym, upd, ss[0]);
      GenSnoc(f.ctx, types, f.sym, f.upd, ss[1..], s);
      var a := Gen(f.ctx, types, f.sym, f.upd, ss[1..]);
      Reassociate(f.code, a.code, GenStmt(a.ctx, types, a.sym, a.upd, s).code, []);
    }
  }

  lemma IfIsGenIf(ctx: Ctx, types: Types, sym: Table, upd: Table, cond: Expr, thn: seq<Stmt>, hasElse: bool,
      els: seq<Stmt>, c: ExprResult, t: Result, f: Result)
    requires c == GenExpr(ctx, sym, cond) && t == Gen(c.ctx, types, sym, map[], thn)
    requires f == if hasElse then Gen(t.ctx, types, sym, map[], els) else Result(t.ctx, sym, map[], [])
    ensures GenStmt(ctx, types, sym, upd, If(cond, thn, hasElse, els)) == GenIf(types, sym, upd, c, t, f)
  {}

  class MlirGen {
    const types: Types
    var ctx: Ctx
    var symbolTable: Table
    var updateTables: seq<Table>
    var block: seq<Inst>

    constructor (types: Types, ctx: Ctx, symbolTable: Table)
      ensures this.types == types && this.ctx == ctx && this.symbolTable == symbolTable
      ensures updateTables == [] && block == []
    {
      this.types, this.ctx, this.symbolTable := types, ctx, symbolTable;
      updateTables, block := [], [];
    }

    /** The innermost update table, empty outside any branch. */
    function Top(): Table
      reads this
    {
      if updateTables == [] then map[] else updateTables[|updateTables| - 1]
    }

    /** This object went from `c`, `tables` and `code` to where `r` says, with scopes nested the
        same way. */
    ghost predicate Followed(r: Result, tables: seq<Table>, code: seq<Inst>)
      reads this
    {
      && ctx == r.ctx && symbolTable == r.sym && block == code + r.code
      && |updateTables| == |tables|
      && (tables != [] ==> Top() == r.upd && updateTables[..|tables| - 1] == tables[..|tables| - 1])
    }

    method Emit(i: Info, c: Inst) returns (id: Id)
      modifies this`ctx, this`block
      ensures id == Tmp(old(ctx.next)) && ctx == old(ctx).Fresh(i) && block == old(block) + [c]
    {
      id := Tmp(ctx.next);
      ctx := ctx.Fresh(i);
      block := block + [c];
    }

    method CastTo(id: Id, t: Ty) returns (r: Id)
      modifies this`ctx, this`block
      ensures var c := SsaGen.TryCast(old(ctx), id, t); r == c.id && ctx == c.ctx && block == old(block) + c.code
    {
      r := id;
      if ctx.TyOf(id).IntT? && t.IntT? && ctx.TyOf(id).width != t.width {
        r := Emit(Info(t, OtherDef), BitCast(Tmp(ctx.next), t.width, id));
      }
    }

    method CastConstantOperand(a: Id, b: Id) returns (a': Id, b': Id)
      modifies this`ctx, this`block
      ensures var p := SsaGen.CastConstant(old(ctx), a, b);
              a' == p.a && b' == p.b && ctx == p.ctx && block == old(block) + p.code
    {
      a', b' := a, b;
      if ctx.DefOf(a).ConstantDef? {
        a' := CastTo(a, ctx.TyOf(b));
      } else if ctx.DefOf(b).ConstantDef? {
        b' := CastTo(b, ctx.TyOf(a));
      }
    }

    method EmitAccess(input: Id, i: nat) returns (id: Id)
      modifies this`ctx, this`block
      ensures var c := SsaGen.GenAccess(old(ctx), input, i); id == c.id && ctx == c.ctx && block == old(block) + c.code
    {
      id := Emit(Info(FieldTy(ctx.TyOf(input), i), AccessDef(input, i)), Access(Tmp(ctx.next), input, i));
    }

    method Expression(e: Expr) returns (id: Id)
      modifies this`ctx, this`block
      ensures var c := SsaGen.GenExpr(old(ctx), symbolTable, e);
        id == c.id && ctx == c.ctx && block == old(block) + c.code
      decreases e
    {
      match e
      case Num(n) => id := Emit(Info(IntT(64), ConstantDef), Const(Tmp(ctx.next), n));
      case Var(x) => id := Lookup(symbolTable, x);
      case Field(x, i) => id := EmitAccess(Lookup(symbolTable, x), i);
      case Bin(op, l, r) =>
        var a := Expression(l);
        ghost var ra := GenExpr(old(ctx), symbolTable, l);
        var b := Expression(r);
        ghost var rb := GenExpr(ra.ctx, symbolTable, r);
        id := Combine(op, a, b);
        ghost var p := CastConstant(rb.ctx, a, b);
        Reassociate(old(block), ra.code, rb.code, p.code + [Binary(Tmp(p.ctx.next), op, p.a, p.b)]);
    }

    method Combine(op: BinOp, a: Id, b: Id) returns (id: Id)
      modifies this`ctx, this`block
      ensures var p := SsaGen.CastConstant(old(ctx), a, b);
        && id == Tmp(p.ctx.next) && ctx == p.ctx.Fresh(Info(if IsCmp(op) then IntT(1) else p.ctx.TyOf(p.a), OtherDef))
        && block == old(block) + (p.code + [Binary(Tmp(p.ctx.next), op, p.a, p.b)])
    {
      var a', b' := CastConstantOperand(a, b);
      var t := if IsCmp(op) then IntT(1) else ctx.TyOf(a');
      id := Emit(Info(t, OtherDef), Binary(Tmp(ctx.next), op, a', b'));
    }

    /** `update`: both the symbol table and the innermost update table learn the new value. */
    method SetVariable(x: Name, value: Id)
      modifies this
      ensures Followed(SetVar(old(ctx), types, old(symbolTable), old(Top()), x, value), old(updateTables), old(block))
    {
      var v := CastTo(value, DeclaredTy(types, x));
      symbolTable := symbolTable[x := v];
      if updateTables != [] {
        var n := |updateTables| - 1;
        updateTables := updateTables[..n] + [updateTables[n][x := v]];
      }
    }

    method Store(x: Name, lhs: Id, rhs: Id)
      modifies this
      ensures Followed(GenStore(old(ctx), types, old(symbolTable), old(Top()), x, lhs, rhs), old(updateTables),
        old(block))
    {
      var l, r := CastConstantOperand(lhs, rhs);
      match ctx.DefOf(l)
      case AccessDef(input, i) =>
        var u := Emit(Info(ctx.TyOf(input), OtherDef), Update(Tmp(ctx.next), input, i, r));
        SetVariable(x, u);
      case _ =>
        SetVariable(x, r);
    }

    method Statement(s: Stmt)
      modifies this
      ensures Followed(GenStmt(old(ctx), types, old(symbolTable), old(Top()), s), old(updateTables), old(block))
      decreases s, 1
    {
      match s
      case Assign(x, e) =>
        var r := Expression(e);
        ghost var re := GenExpr(old(ctx), old(symbolTable), e);
        Store(x, Lookup(symbolTable, x), r);
        ghost var w := GenStore(re.ctx, types, old(symbolTable), old(Top()), x, Lookup(old(symbolTable), x), re.id);
        Reassociate(old(block), re.code, w.code, []);
      case AssignField(x, i, e) =>
        AssignToField(x, i, e);
      case If(cond, thn, hasElse, els) =>
        IfElse(cond, thn, hasElse, els);
    }

    method AssignToField(x: Name, i: nat, e: Expr)
      modifies this
      ensures Followed(GenStmt(old(ctx), types, old(symbolTable), old(Top()), AssignField(x, i, e)), old(updateTables),
        old(block))
      decreases AssignField(x, i, e), 0
    {
      var l := EmitAccess(Lookup(symbolTable, x), i);
      ghost var rl := GenAccess(old(ctx), Lookup(old(symbolTable), x), i);
      var r := Expression(e);
      ghost var re := GenExpr(rl.ctx, old(symbolTable), e);
      Store(x, l, r);
      ghost var w := GenStore(re.ctx, types, old(symbolTable), old(Top()), x, rl.id, re.id);
      Reassociate(old(block), rl.code, re.code, w.code);
    }

    /** Generate one branch into a block of its own, with a fresh update table and a scope that
        ends with the branch. */
    method Branch(present: bool, ss: seq<Stmt>) returns (code: seq<Inst>, table: Table)
      modifies this
      ensures var r := if present then Gen(old(ctx), types, old(symbolTable), map[], ss)
        else Result(old(ctx), old(symbolTable), map[], []);
              code == r.code && table == r.upd && ctx == r.ctx
      ensures symbolTable == old(symbolTable) && updateTables == old(updateTables) && block == old(block)
      decreases ss, 1
    {
      var scope, outer := symbolTable, block;
      ghost var tables := updateTables;
      updateTables := updateTables + [map[]];
      block := [];
      if present {
        Statements(ss);
      }
      code, table := block, Top();
      updateTables := updateTables[..|updateTables| - 1];
      symbolTable, block := scope, outer;
      assert updateTables == tables;
    }

    method IfElse(cond: Expr, thn: seq<Stmt>, hasElse: bool, els: seq<Stmt>)
      modifies this
      ensures Followed(GenStmt(old(ctx), types, old(symbolTable), old(Top()), If(cond, thn, hasElse, els)),
        old(updateTables), old(block))
      decreases If(cond, thn, hasElse, els), 0
    {
      var c := Expression(cond);
      ghost var rc := GenExpr(old(ctx), old(symbolTable), cond);
      var thnCode, thenTable := Branch(true, thn);
      ghost var rt := Gen(rc.ctx, types, old(symbolTable), map[], thn);
      var elsCode, elseTable := Branch(hasElse, els);
      ghost var rf := if hasElse then Gen(rt.ctx, types, old(symbolTable), map[], els)
        else Result(rt.ctx, old(symbolTable), map[], []);
      MergeAndJoin(rc, rt, rf, c, thnCode, thenTable, elsCode, elseTable);
      ghost var r := GenIf(types, old(symbolTable), old(Top()), rc, rt, rf);
      IfIsGenIf(old(ctx), types, old(symbolTable), old(Top()), cond, thn, hasElse, els, rc, rt, rf);
      Reassociate(old(block), rc.code, [r.code[|rc.code|]], []);
    }

    method MergeAndJoin(ghost rc: ExprResult, ghost rt: Result, ghost rf: Result,
        c: Id, thnCode: seq<Inst>, thenTable: Table, elsCode: seq<Inst>, elseTable: Table)
      requires ctx == rf.ctx && c == rc.id && thnCode == rt.code && thenTable == rt.upd && elsCode == rf.code
      requires elseTable == rf.upd
      modifies this
      ensures var r := GenIf(types, old(symbolTable), old(Top()), rc, rt, rf);
              Followed(r.(code := [r.code[|rc.code|]]), old(updateTables), old(block))
    {
      var e := Merge(thenTable, elseTable, symbolTable);
      var t := Merge(e, thenTable, symbolTable);
      Join(c, thnCode, t, elsCode, e);
    }

    method Join(c: Id, thnCode: seq<Inst>, thenTable: Table, elsCode: seq<Inst>, elseTable: Table)
      modifies this
      ensures var n, keys := old(ctx.next), thenTable.Keys;
        Followed(Result(old(ctx).FreshResults(types, keys), old(symbolTable) + Results(n, keys),
          old(Top()) + Results(n, keys),
                        [IfOp(n, c, thnCode, thenTable, elsCode, elseTable)]), old(updateTables), old(block))
    {
      var keys := thenTable.Keys;
      var n := ctx.next;
      block := block + [IfOp(n, c, thnCode, thenTable, elsCode, elseTable)];
      ctx := ctx.FreshResults(types, keys);
      symbolTable := symbolTable + Results(n, keys);
      if updateTables != [] {
        var k := |updateTables| - 1;
        updateTables := updateTables[..k] + [updateTables[k] + Results(n, keys)];
      }
    }

    /** A list of statements in the current scope. */
    method Statements(ss: seq<Stmt>)
      modifies this
      ensures Followed(Gen(old(ctx), types, old(symbolTable), old(Top()), ss), old(updateTables), old(block))
      decreases ss, 0
    {
      ghost var r := Result(ctx, symbolTable, Top(), []);
      for i := 0 to |ss|
        invariant r == Gen(old(ctx), types, old(symbolTable), old(Top()), ss[..i])
        invariant Followed(r, old(updateTables), old(block))
      {
        ghost var upd := Top();
        Statement(ss[i]);
        ghost var b := GenStmt(r.ctx, types, r.sym, r.upd, ss[i]);
        UpdatesDoNotMatter(r.ctx, types, r.sym, r.upd, upd, ss[i]);
        Reassociate(old(block), r.code, b.code, []);
        GenSnoc(old(ctx), types, old(symbolTable), old(Top()), ss[..i], ss[i]);
        assert ss[..i] + [ss[i]] == ss[..i + 1];
        r := b.(code := r.code + b.code);
      }
      assert ss[..|ss|] == ss;
    }
  }

  /** Translate a handler body: from every environment that agrees with a store, the generated
      operations lead to one that agrees with what the body makes of that store. */
  method Translate(types: Types, ctx: Ctx, sym: Table, body: seq<Stmt>, ghost risky: set<Name>)
      returns (code: seq<Inst>, final: Table, ctx': Ctx)
    requires WellTyped(body, types) && Tracks(ctx, sym, risky) && Safe(body, types, risky)
    ensures forall env, st :: Agree(ctx, types, sym, env, st) ==>
              Agree(ctx', types, final, Run(code, env), Exec(body, types, st))
  {
    var g := new MlirGen(types, ctx, sym);
    g.Statements(body);
    code, final, ctx' := g.block, g.symbolTable, g.ctx;
    ghost var r := Gen(ctx, types, sym, map[], body);
    assert code == [] + r.code == r.code && final == r.sym && ctx' == r.ctx;
    forall env, st | Agree(ctx, types, sym, env, st)
      ensures Agree(ctx', types, final, Run(code, env), Exec(body, types, st))
    {
      GenOk(ctx, types, sym, map[], env, st, body, risky);
    }
  }
}
