/** From the syntax tree to SSA form (`MLIRGenImpl`): assignments, one-level field updates and
    nested if/else over declared variables.

    The generator keeps a symbol table from variables to SSA values and a stack of update
    tables, one per open branch, from which each `if` derives its results. The theorem is that
    running the emitted operations computes what the imperative program computes. */
module SsaGen {

  // ----- Types and values -----

  datatype Ty = IntT(width: nat) | StructT(fields: seq<Ty>)

  datatype Val = IntV(width: nat, n: nat) | StructV(fields: seq<Val>)

  const JUNK := IntV(0, 0)

  predicate HasTy(v: Val, t: Ty) {
    match v
    case IntV(w, _) => t == IntT(w)
    case StructV(fs) => t.StructT? && |fs| == |t.fields| && forall i :: 0 <= i < |fs| ==> HasTy(fs[i], t.fields[i])
  }

  function Pow2(n: nat): (p: nat)
    ensures 0 < p
  {
    if n == 0 then 1 else 2 * Pow2(n - 1)
  }

  /** Conversion to a declared integer type; other values pass unchanged. */
  function Cast(v: Val, t: Ty): Val {
    if v.IntV? && t.IntT? && v.width != t.width then IntV(t.width, v.n % Pow2(t.width)) else v
  }

  function CastLike(v: Val, w: Val): Val {
    if w.IntV? then Cast(v, IntT(w.width)) else v
  }

  function GetField(v: Val, i: nat): Val {
    if v.StructV? && i < |v.fields| then v.fields[i] else JUNK
  }

  function SetField(v: Val, i: nat, w: Val): Val {
    if v.StructV? && i < |v.fields| then StructV(v.fields[i := w]) else v
  }

  datatype BinOp = Add | Sub | Mul | Eq | Le | Ge | Lt | Gt

  predicate IsCmp(op: BinOp) {
    op in {Eq, Le, Ge, Lt, Gt}
  }

  function Compare(op: BinOp, a: nat, b: nat): bool {
    match op
    case Eq => a == b
    case Le => a <= b
    case Ge => a >= b
    case Lt => a < b
    case Gt => a > b
    case _ => false
  }

  function Arith(op: BinOp, a: nat, b: nat): int {
    if op == Add then a + b else if op == Sub then a - b else a * b
  }

  function BinVal(op: BinOp, a: Val, b: Val): Val {
    if !a.IntV? || !b.IntV? then JUNK
    else if IsCmp(op) then IntV(1, if Compare(op, a.n, b.n) then 1 else 0)
    else IntV(a.width, Arith(op, a.n, b.n) % Pow2(a.width))
  }

  predicate Truthy(v: Val) { v.IntV? && v.n != 0 }

  // ----- Source language -----

  datatype Name = Name(text: string)

  datatype Expr = Num(n: nat) | Var(x: Name) | Field(x: Name, i: nat) | Bin(op: BinOp, l: Expr, r: Expr)

  datatype Stmt =
    | Assign(x: Name, e: Expr)
    | AssignField(x: Name, i: nat, e: Expr)
    | If(cond: Expr, thn: seq<Stmt>, hasElse: bool, els: seq<Stmt>)

  type Store = map<Name, Val>
  type Types = map<Name, Ty>

  function Read(st: Store, x: Name): Val { if x in st then st[x] else JUNK }

  /** A literal takes the width of the other operand. */
  function Eval(e: Expr, st: Store): Val {
    match e
    case Num(n) => IntV(64, n % Pow2(64))
    case Var(x) => Read(st, x)
    case Field(x, i) => GetField(Read(st, x), i)
    case Bin(op, l, r) =>
      var a, b := Eval(l, st), Eval(r, st);
      if l.Num? then BinVal(op, CastLike(a, b), b)
      else if r.Num? then BinVal(op, a, CastLike(b, a))
      else BinVal(op, a, b)
  }

  function ExecStmt(s: Stmt, types: Types, st: Store): Store
    decreases s, 1
  {
    match s
    case Assign(x, e) => if x in types then st[x := Cast(Eval(e, st), types[x])] else st
    case AssignField(x, i, e) =>
      var v := Eval(e, st);
      var w := if e.Num? then CastLike(v, GetField(Read(st, x), i)) else v;
      st[x := SetField(Read(st, x), i, w)]
    case If(cond, thn, hasElse, els) =>
      if Truthy(Eval(cond, st)) then Exec(thn, types, st)
      else if hasElse then Exec(els, types, st)
      else st
  }

  function Exec(ss: seq<Stmt>, types: Types, st: Store): Store
    decreases ss, 0
  {
    if ss == [] then st else Exec(ss[1..], types, ExecStmt(ss[0], types, st))
  }

  // ----- Typing -----

  datatype MaybeTy = Ill | Typed(t: Ty)

  function TypeOf(e: Expr, types: Types): MaybeTy {
    match e
    case Num(_) => Typed(IntT(64))
    case Var(x) => if x in types then Typed(types[x]) else Ill
    case Field(x, i) =>
      if x in types && types[x].StructT? && i < |types[x].fields| then Typed(types[x].fields[i]) else Ill
    case Bin(op, l, r) =>
      match (TypeOf(l, types), TypeOf(r, types))
      case (Typed(IntT(wl)), Typed(IntT(wr))) =>
        if l.Num? then Typed(IntT(if IsCmp(op) then 1 else wr))
        else if r.Num? || wl == wr then Typed(IntT(if IsCmp(op) then 1 else wl))
        else Ill
      case _ => Ill
  }

  predicate WellTypedStmt(s: Stmt, types: Types)
    decreases s, 1
  {
    match s
    case Assign(x, e) =>
      x in types && var t := TypeOf(e, types);
      t.Typed? && (t.t == types[x] || (t.t.IntT? && types[x].IntT?))
    case AssignField(x, i, e) =>
      x in types && types[x].StructT? && i < |types[x].fields| && var t := TypeOf(e, types);
      t.Typed? && (t.t == types[x].fields[i] || (e.Num? && types[x].fields[i].IntT?))
    case If(cond, thn, hasElse, els) =>
      var t := TypeOf(cond, types);
      t.Typed? && t.t.IntT? && WellTyped(thn, types) && (hasElse ==> WellTyped(els, types))
  }

  predicate WellTyped(ss: seq<Stmt>, types: Types)
    decreases ss, 0
  {
    ss == [] || (WellTypedStmt(ss[0], types) && WellTyped(ss[1..], types))
  }

  // ----- Target language -----

  /** SSA values: the result of the operation with number `n`, or the result that an `if` with
      number `n` yields for variable `x`. */
  datatype Id = Tmp(n: nat) | IfRes(n: nat, x: Name)

  datatype Inst =
    | Const(dst: Id, n: nat)
    | Binary(dst: Id, op: BinOp, a: Id, b: Id)
    | BitCast(dst: Id, width: nat, a: Id)
    | Access(dst: Id, a: Id, i: nat)
    | Update(dst: Id, a: Id, i: nat, b: Id)
    | IfOp(num: nat, cond: Id, thn: seq<Inst>, thnYields: map<Name, Id>, els: seq<Inst>, elsYields: map<Name, Id>)

  type Env = map<Id, Val>
  type Table = map<Name, Id>

  function Get(env: Env, id: Id): Val { if id in env then env[id] else JUNK }

  /** The results of `if` number `n` when the taken branch ends in `env` and yields `ys`. */
  function Yielded(n: nat, ys: Table, env: Env): (r: Env)
    ensures forall d: Id :: d in r <==> d.IfRes? && d.n == n && d.x in ys
    ensures forall d: Id :: d in r ==> r[d] == Get(env, ys[d.x])
  {
    var ds := set x | x in ys :: IfRes(n, x);
    map d: Id | d in ds :: Get(env, ys[d.x])
  }

  /** Values defined inside a region are dropped when the region ends. */
  function RunInst(c: Inst, env: Env): Env
    decreases c, 1
  {
    match c
    case Const(d, n) => env[d := IntV(64, n % Pow2(64))]
    case Binary(d, op, a, b) => env[d := BinVal(op, Get(env, a), Get(env, b))]
    case BitCast(d, w, a) => env[d := Cast(Get(env, a), IntT(w))]
    case Access(d, a, i) => env[d := GetField(Get(env, a), i)]
    case Update(d, a, i, b) => env[d := SetField(Get(env, a), i, Get(env, b))]
    case IfOp(n, cond, thn, ty, els, ey) =>
      if Truthy(Get(env, cond)) then env + Yielded(n, ty, Run(thn, env)) else env + Yielded(n, ey, Run(els, env))
  }

  function Run(code: seq<Inst>, env: Env): Env
    decreases code, 0
  {
    if code == [] then env else Run(code[1..], RunInst(code[0], env))
  }

  lemma {:induction false} RunConcat(a: seq<Inst>, b: seq<Inst>, env: Env)
    ensures Run(a + b, env) == Run(b, Run(a, env))
    decreases |a|
  {
    if a == [] {
      assert a + b == b;
    } else {
      assert (a + b)[1..] == a[1..] + b;
      RunConcat(a[1..], b, RunInst(a[0], env));
    }
  }

  lemma RunOne(c: Inst, env: Env)
    ensures Run([c], env) == RunInst(c, env)
  {}

  // ----- The generator -----

  /** What the generator can ask about an SSA value: its type and what defines it. */
  datatype Def = ConstantDef | AccessDef(input: Id, index: nat) | OtherDef
  datatype Info = Info(ty: Ty, def: Def)

  /** All values created so far. */
  datatype Ctx = Ctx(next: nat, info: map<Id, Info>) {
    ghost predicate Valid() {
      && (forall id :: id in info ==> id.n < next)
      && (forall id :: id in info && info[id].def.ConstantDef? ==> info[id].ty == IntT(64))
      && (forall id :: id in info && info[id].def.AccessDef? ==> AccessTyped(info[id]))
    }

    /** A field access has the type of the field it reads. */
    ghost predicate AccessTyped(i: Info)
      requires i.def.AccessDef?
    {
      && i.def.input in info && info[i.def.input].ty.StructT? && i.def.index < |info[i.def.input].ty.fields|
      && info[i.def.input].ty.fields[i.def.index] == i.ty
    }

    function Fresh(i: Info): Ctx { Ctx(next + 1, info[Tmp(next) := i]) }

    /** One result per variable in `keys`, of the declared type, for the next `if`. */
    function FreshResults(types: Types, keys: set<Name>): Ctx {
      Ctx(next + 1, info + ResultInfo(next, types, keys))
    }

    function TyOf(id: Id): Ty { if id in info then info[id].ty else IntT(0) }

    function DefOf(id: Id): Def { if id in info then info[id].def else OtherDef }

    ghost predicate Extends(c: Ctx) {
      next <= c.next && forall id :: id in info ==> id in c.info && c.info[id] == info[id]
    }
  }

  function ResultInfo(n: nat, types: Types, keys: set<Name>): (r: map<Id, Info>)
    ensures forall d: Id :: d in r <==> d.IfRes? && d.n == n && d.x in keys
    ensures forall d: Id :: d in r ==> r[d] == Info(DeclaredTy(types, d.x), OtherDef)
  {
    var ds := set x | x in keys :: IfRes(n, x);
    map d: Id | d in ds :: Info(DeclaredTy(types, d.x), OtherDef)
  }

  datatype ExprResult = ExprResult(ctx: Ctx, id: Id, code: seq<Inst>)
  datatype Result = Result(ctx: Ctx, sym: Table, upd: Table, code: seq<Inst>)

  function Lookup(sym: Table, x: Name): Id { if x in sym then sym[x] else Tmp(0) }

  /** `tryCast`: a bit cast between integer types of different width, else nothing. */
  function TryCast(ctx: Ctx, id: Id, t: Ty): ExprResult {
    if ctx.TyOf(id).IntT? && t.IntT? && ctx.TyOf(id).width != t.width
    then ExprResult(ctx.Fresh(Info(t, OtherDef)), Tmp(ctx.next), [BitCast(Tmp(ctx.next), t.width, id)])
    else ExprResult(ctx, id, [])
  }

  datatype Operands = Operands(ctx: Ctx, a: Id, b: Id, code: seq<Inst>)

  /** Cast the operand that a constant defines to the type of the other, the left one first. */
  function CastConstant(ctx: Ctx, a: Id, b: Id): Operands {
    if ctx.DefOf(a).ConstantDef? then
      var c := TryCast(ctx, a, ctx.TyOf(b));
      Operands(c.ctx, c.id, b, c.code)
    else if ctx.DefOf(b).ConstantDef? then
      var c := TryCast(ctx, b, ctx.TyOf(a));
      Operands(c.ctx, a, c.id, c.code)
    else Operands(ctx, a, b, [])
  }

  function GenExpr(ctx: Ctx, sym: Table, e: Expr): ExprResult
    decreases e
  {
    match e
    case Num(n) => ExprResult(ctx.Fresh(Info(IntT(64), ConstantDef)), Tmp(ctx.next), [Const(Tmp(ctx.next), n)])
    case Var(x) => ExprResult(ctx, Lookup(sym, x), [])
    case Field(x, i) => GenAccess(ctx, Lookup(sym, x), i)
    case Bin(op, l, r) =>
      var a := GenExpr(ctx, sym, l);
      var b := GenExpr(a.ctx, sym, r);
      var p := CastConstant(b.ctx, a.id, b.id);
      var t := if IsCmp(op) then IntT(1) else p.ctx.TyOf(p.a);
      ExprResult(p.ctx.Fresh(Info(t, OtherDef)), Tmp(p.ctx.next),
                 a.code + (b.code + (p.code + [Binary(Tmp(p.ctx.next), op, p.a, p.b)])))
  }

  function FieldTy(t: Ty, i: nat): Ty {
    if t.StructT? && i < |t.fields| then t.fields[i] else IntT(0)
  }

  function GenAccess(ctx: Ctx, input: Id, i: nat): ExprResult {
    ExprResult(ctx.Fresh(Info(FieldTy(ctx.TyOf(input), i), AccessDef(input, i))), Tmp(ctx.next),
      [Access(Tmp(ctx.next), input, i)])
  }

  function DeclaredTy(types: Types, x: Name): Ty { if x in types then types[x] else IntT(0) }

  /** `update`: give a variable a new value, cast to its declared type, and record it in the
      innermost update table. */
  function SetVar(ctx: Ctx, types: Types, sym: Table, upd: Table, x: Name, id: Id): Result {
    var c := TryCast(ctx, id, DeclaredTy(types, x));
    Result(c.ctx, sym[x := c.id], upd[x := c.id], c.code)
  }

  /** The assignment case of a binary expression. The test for a field update looks at what
      defines the value on the left, not at the shape of the left-hand side. */
  function GenStore(ctx: Ctx, types: Types, sym: Table, upd: Table, x: Name, lhs: Id, rhs: Id): Result {
    var p := CastConstant(ctx, lhs, rhs);
    match p.ctx.DefOf(p.a)
    case AccessDef(input, i) =>
      var u := Update(Tmp(p.ctx.next), input, i, p.b);
      var s := SetVar(p.ctx.Fresh(Info(p.ctx.TyOf(input), OtherDef)), types, sym, upd, x, Tmp(p.ctx.next));
      s.(code := p.code + ([u] + s.code))
    case _ =>
      var s := SetVar(p.ctx, types, sym, upd, x, p.b);
      s.(code := p.code + s.code)
  }

  /** Entries of one branch table that the other lacks keep the value from before the `if`. */
  function Merge(from: Table, to: Table, sym: Table): Table {
    map k | k in from.Keys + to.Keys :: if k in to then to[k] else Lookup(sym, k)
  }

  function GenStmt(ctx: Ctx, types: Types, sym: Table, upd: Table, s: Stmt): Result
    decreases s, 1
  {
    match s
    case Assign(x, e) =>
      var r := GenExpr(ctx, sym, e);
      var w := GenStore(r.ctx, types, sym, upd, x, Lookup(sym, x), r.id);
      w.(code := r.code + w.code)
    case AssignField(x, i, e) =>
      var l := GenAccess(ctx, Lookup(sym, x), i);
      var r := GenExpr(l.ctx, sym, e);
      var w := GenStore(r.ctx, types, sym, upd, x, l.id, r.id);
      w.(code := l.code + (r.code + w.code))
    case If(cond, thn, hasElse, els) =>
      var c := GenExpr(ctx, sym, cond);
      var t := Gen(c.ctx, types, sym, map[], thn);
      var f := if hasElse then Gen(t.ctx, types, sym, map[], els) else Result(t.ctx, sym, map[], []);
      GenIf(types, sym, upd, c, t, f)
  }

  /** The values of an `if`'s results, by variable. */
  function Results(n: nat, keys: set<Name>): Table {
    map x | x in keys :: IfRes(n, x)
  }

  /** Join the two branches of an `if`. Its results have the declared types, so giving them to
      the variables needs no cast. */
  function GenIf(types: Types, sym: Table, upd: Table, c: ExprResult, t: Result, f: Result): Result {
    var elseTable := Merge(t.upd, f.upd, sym);
    var thenTable := Merge(elseTable, t.upd, sym);
    var keys := thenTable.Keys;
    var op := IfOp(f.ctx.next, c.id, t.code, thenTable, f.code, elseTable);
    Result(f.ctx.FreshResults(types, keys), sym + Results(f.ctx.next, keys), upd + Results(f.ctx.next, keys),
      c.code + [op])
  }

  function Gen(ctx: Ctx, types: Types, sym: Table, upd: Table, ss: seq<Stmt>): Result
    decreases ss, 0
  {
    if ss == [] then Result(ctx, sym, upd, [])
    else
      var a := GenStmt(ctx, types, sym, upd, ss[0]);
      var b := Gen(a.ctx, types, a.sym, a.upd, ss[1..]);
      b.(code := a.code + b.code)
  }

  // ----- Simulation -----

  /** Every value in the environment is known and has its static type. */
  ghost predicate EnvOk(ctx: Ctx, env: Env) {
    ctx.Valid() && forall id :: id in env ==> id in ctx.info && HasTy(env[id], ctx.info[id].ty)
  }

  ghost predicate Grows(env: Env, env': Env) {
    forall id :: id in env ==> id in env' && env'[id] == env[id]
  }

  /** Every variable's SSA value evaluates to what the variable holds, at its declared type. */
  ghost predicate Agree(ctx: Ctx, types: Types, sym: Table, env: Env, st: Store) {
    && EnvOk(ctx, env)
    && sym.Keys == types.Keys == st.Keys
    && forall x :: x in types ==> sym[x] in env && env[sym[x]] == st[x] && ctx.info[sym[x]].ty == types[x]
  }

  lemma FreshOk(ctx: Ctx, env: Env, i: Info, v: Val)
    requires EnvOk(ctx, env) && HasTy(v, i.ty) && (i.def.ConstantDef? ==> i.ty == IntT(64))
    requires i.def.AccessDef? ==> ctx.AccessTyped(i)
    ensures EnvOk(ctx.Fresh(i), env[Tmp(ctx.next) := v]) && Grows(env, env[Tmp(ctx.next) := v])
    ensures ctx.Extends(ctx.Fresh(i))
  {}

  lemma AgreeGrows(ctx: Ctx, ctx': Ctx, types: Types, sym: Table, env: Env, env': Env, st: Store)
    requires Agree(ctx, types, sym, env, st) && ctx.Extends(ctx') && Grows(env, env') && EnvOk(ctx', env')
    ensures Agree(ctx', types, sym, env', st)
  {}

  /** What running an expression's code achieves. */
  ghost predicate Computes(ctx: Ctx, env: Env, r: ExprResult, v: Val, t: Ty) {
    var env' := Run(r.code, env);
    && ctx.Extends(r.ctx) && EnvOk(r.ctx, env') && Grows(env, env')
    && r.id in env' && env'[r.id] == v && r.ctx.info[r.id].ty == t
  }

  function CastTy(t: Ty, to: Ty): Ty { if t.IntT? && to.IntT? then to else t }

  lemma TryCastOk(ctx: Ctx, env: Env, id: Id, t: Ty)
    requires EnvOk(ctx, env) && id in env
    ensures Computes(ctx, env, TryCast(ctx, id, t), Cast(env[id], t), CastTy(ctx.TyOf(id), t))
  {
    if TryCast(ctx, id, t).code != [] {
      FreshOk(ctx, env, Info(t, OtherDef), Cast(env[id], t));
      RunOne(BitCast(Tmp(ctx.next), t.width, id), env);
    }
  }

  lemma CastConstantOk(ctx: Ctx, env: Env, a: Id, b: Id)
    requires EnvOk(ctx, env) && a in env && b in env
    ensures var p := CastConstant(ctx, a, b); var env' := Run(p.code, env);
      && ctx.Extends(p.ctx) && EnvOk(p.ctx, env') && Grows(env, env') && p.a in env' && p.b in env'
      && var left := ctx.DefOf(a).ConstantDef?; var right := !left && ctx.DefOf(b).ConstantDef?;
      && env'[p.a] == (if left then Cast(env[a], ctx.TyOf(b)) else env[a])
      && p.ctx.TyOf(p.a) == (if left then CastTy(ctx.TyOf(a), ctx.TyOf(b)) else ctx.TyOf(a))
      && env'[p.b] == (if right then Cast(env[b], ctx.TyOf(a)) else env[b])
      && p.ctx.TyOf(p.b) == (if right then CastTy(ctx.TyOf(b), ctx.TyOf(a)) else ctx.TyOf(b))
  {
    if ctx.DefOf(a).ConstantDef? {
      TryCastOk(ctx, env, a, ctx.TyOf(b));
    } else if ctx.DefOf(b).ConstantDef? {
      TryCastOk(ctx, env, b, ctx.TyOf(a));
    }
  }

  lemma GenAccessOk(ctx: Ctx, env: Env, input: Id, i: nat)
    requires EnvOk(ctx, env) && input in env && ctx.info[input].ty.StructT? && i < |ctx.info[input].ty.fields|
    ensures Computes(ctx, env, GenAccess(ctx, input, i), GetField(env[input], i), ctx.info[input].ty.fields[i])
  {
    FreshOk(ctx, env, Info(ctx.info[input].ty.fields[i], AccessDef(input, i)), GetField(env[input], i));
    RunOne(Access(Tmp(ctx.next), input, i), env);
  }

  lemma ComputesThen(ctx: Ctx, env: Env, code: seq<Inst>, ctx1: Ctx, r: ExprResult, v: Val, t: Ty)
    requires ctx.Extends(ctx1) && Grows(env, Run(code, env)) && Computes(ctx1, Run(code, env), r, v, t)
    ensures Computes(ctx, env, r.(code := code + r.code), v, t)
  {
    RunConcat(code, r.code, env);
  }

  /** Emitting a binary operation on two computed operands. */
  lemma GenBinOk(ctx: Ctx, env: Env, op: BinOp, a: Id, b: Id, l: Expr, r: Expr)
    requires EnvOk(ctx, env) && a in env && b in env && ctx.TyOf(a).IntT? && ctx.TyOf(b).IntT?
    requires l.Num? ==> ctx.DefOf(a).ConstantDef?
    requires r.Num? ==> ctx.DefOf(b).ConstantDef?
    requires l.Num? || r.Num? || ctx.TyOf(a) == ctx.TyOf(b)
    ensures var p := CastConstant(ctx, a, b);
            var t := if IsCmp(op) then IntT(1) else p.ctx.TyOf(p.a);
            var v := if l.Num? then BinVal(op, CastLike(env[a], env[b]), env[b])
                     else if r.Num? then BinVal(op, env[a], CastLike(env[b], env[a]))
                     else BinVal(op, env[a], env[b]);
            && Computes(ctx, env,
              ExprResult(p.ctx.Fresh(Info(t, OtherDef)), Tmp(p.ctx.next),
                p.code + [Binary(Tmp(p.ctx.next), op, p.a, p.b)]), v, t)
            && t == if IsCmp(op) then IntT(1) else if l.Num? then ctx.TyOf(b) else ctx.TyOf(a)
  {
    CastConstantOk(ctx, env, a, b);
    var p := CastConstant(ctx, a, b);
    var env' := Run(p.code, env);
    var t := if IsCmp(op) then IntT(1) else p.ctx.TyOf(p.a);
    var v := BinVal(op, env'[p.a], env'[p.b]);
    FreshOk(p.ctx, env', Info(t, OtherDef), v);
    RunOne(Binary(Tmp(p.ctx.next), op, p.a, p.b), env');
    ComputesThen(ctx, env, p.code, p.ctx,
      ExprResult(p.ctx.Fresh(Info(t, OtherDef)), Tmp(p.ctx.next), [Binary(Tmp(p.ctx.next), op, p.a, p.b)]), v, t);
  }

  lemma {:induction false} GenExprOk(ctx: Ctx, types: Types, sym: Table, env: Env, st: Store, e: Expr)
    requires Agree(ctx, types, sym, env, st) && TypeOf(e, types).Typed?
    ensures Computes(ctx, env, GenExpr(ctx, sym, e), Eval(e, st), TypeOf(e, types).t)
    ensures e.Num? ==> GenExpr(ctx, sym, e).ctx.DefOf(GenExpr(ctx, sym, e).id).ConstantDef?
    decreases e
  {
    match e
    case Num(n) =>
      FreshOk(ctx, env, Info(IntT(64), ConstantDef), IntV(64, n % Pow2(64)));
      RunOne(Const(Tmp(ctx.next), n), env);
    case Var(x) =>
    case Field(x, i) =>
      GenAccessOk(ctx, env, sym[x], i);
    case Bin(op, l, r) =>
      var a := GenExpr(ctx, sym, l);
      GenExprOk(ctx, types, sym, env, st, l);
      var env1 := Run(a.code, env);
      AgreeGrows(ctx, a.ctx, types, sym, env, env1, st);
      var b := GenExpr(a.ctx, sym, r);
      GenExprOk(a.ctx, types, sym, env1, st, r);
      var env2 := Run(b.code, env1);
      GenBinOk(b.ctx, env2, op, a.id, b.id, l, r);
      var res := GenExpr(ctx, sym, e);
      var p := CastConstant(b.ctx, a.id, b.id);
      var last := p.code + [Binary(Tmp(p.ctx.next), op, p.a, p.b)];
      ComputesThen(a.ctx, env1, b.code, b.ctx, ExprResult(res.ctx, res.id, last), Eval(e, st), TypeOf(e, types).t);
      ComputesThen(ctx, env, a.code, a.ctx, ExprResult(res.ctx, res.id, b.code + last), Eval(e, st),
        TypeOf(e, types).t);
  }

  // ----- Statements -----

  /** Running `r.code` takes an agreeing environment to one that agrees with the store `st`. */
  ghost predicate Simulates(ctx: Ctx, types: Types, env: Env, r: Result, st: Store) {
    var env' := Run(r.code, env);
    ctx.Extends(r.ctx) && Grows(env, env') && Agree(r.ctx, types, r.sym, env', st)
  }

  lemma SimulatesThen(ctx: Ctx, types: Types, env: Env, code: seq<Inst>, ctx1: Ctx, r: Result, st: Store)
    requires ctx.Extends(ctx1) && Grows(env, Run(code, env)) && Simulates(ctx1, types, Run(code, env), r, st)
    ensures Simulates(ctx, types, env, r.(code := code + r.code), st)
  {
    RunConcat(code, r.code, env);
  }

  lemma SetVarOk(ctx: Ctx, types: Types, sym: Table, upd: Table, env: Env, st: Store, x: Name, id: Id)
    requires Agree(ctx, types, sym, env, st) && id in env && x in types
    requires ctx.TyOf(id) == types[x] || (ctx.TyOf(id).IntT? && types[x].IntT?)
    ensures Simulates(ctx, types, env, SetVar(ctx, types, sym, upd, x, id), st[x := Cast(env[id], types[x])])
  {
    TryCastOk(ctx, env, id, types[x]);
    var c := TryCast(ctx, id, types[x]);
    AgreeGrows(ctx, c.ctx, types, sym, env, Run(c.code, env), st);
  }

  /** A plain assignment, when no field access defines the variable's current value. */
  lemma GenStoreOk(ctx: Ctx, types: Types, sym: Table, upd: Table, env: Env, st: Store, x: Name, rhs: Id)
    requires Agree(ctx, types, sym, env, st) && rhs in env && x in types
    requires ctx.TyOf(rhs) == types[x] || (ctx.TyOf(rhs).IntT? && types[x].IntT?)
    requires !ctx.DefOf(sym[x]).AccessDef?
    ensures Simulates(ctx, types, env, GenStore(ctx, types, sym, upd, x, sym[x], rhs),
      st[x := Cast(env[rhs], types[x])])
  {
    CastConstantOk(ctx, env, sym[x], rhs);
    var p := CastConstant(ctx, sym[x], rhs);
    var env1 := Run(p.code, env);
    AgreeGrows(ctx, p.ctx, types, sym, env, env1, st);
    SetVarOk(p.ctx, types, sym, upd, env1, st, x, p.b);
    SimulatesThen(ctx, types, env, p.code, p.ctx, SetVar(p.ctx, types, sym, upd, x, p.b),
      st[x := Cast(env1[p.b], types[x])]);
  }

  lemma SetFieldTyped(v: Val, t: Ty, i: nat, w: Val)
    requires HasTy(v, t) && t.StructT? && i < |t.fields| && HasTy(w, t.fields[i])
    ensures HasTy(GetField(v, i), t.fields[i]) && HasTy(SetField(v, i, w), t)
  {}

  /** Emit the update of field `i` of `x` to the value `b`. */
  lemma EmitUpdateOk(ctx: Ctx, types: Types, sym: Table, upd: Table, env: Env, st: Store, x: Name, i: nat, b: Id)
    requires Agree(ctx, types, sym, env, st) && b in env
    requires x in types && types[x].StructT? && i < |types[x].fields| && ctx.TyOf(b) == types[x].fields[i]
    ensures var s := SetVar(ctx.Fresh(Info(types[x], OtherDef)), types, sym, upd, x, Tmp(ctx.next));
            Simulates(ctx, types, env, s.(code := [Update(Tmp(ctx.next), sym[x], i, b)] + s.code),
              st[x := SetField(st[x], i, env[b])])
  {
    SetFieldTyped(st[x], types[x], i, env[b]);
    var v := SetField(st[x], i, env[b]);
    var u := Update(Tmp(ctx.next), sym[x], i, b);
    var ctx2 := ctx.Fresh(Info(types[x], OtherDef));
    var env2 := env[Tmp(ctx.next) := v];
    FreshOk(ctx, env, Info(types[x], OtherDef), v);
    RunOne(u, env);
    AgreeGrows(ctx, ctx2, types, sym, env, env2, st);
    SetVarOk(ctx2, types, sym, upd, env2, st, x, Tmp(ctx.next));
    SimulatesThen(ctx, types, env, [u], ctx2, SetVar(ctx2, types, sym, upd, x, Tmp(ctx.next)), st[x := v]);
  }

  /** A field update: the left-hand side was generated as a fresh access. */
  lemma GenFieldStoreOk(ctx: Ctx, types: Types, sym: Table, upd: Table, env: Env, st: Store,
      x: Name, i: nat, lhs: Id, rhs: Id, num: bool)
    requires Agree(ctx, types, sym, env, st) && lhs in env && rhs in env
    requires x in types && types[x].StructT? && i < |types[x].fields|
    requires ctx.DefOf(lhs) == AccessDef(sym[x], i) && ctx.TyOf(lhs) == types[x].fields[i]
    requires ctx.TyOf(rhs) == types[x].fields[i] || (num && ctx.TyOf(rhs).IntT? && types[x].fields[i].IntT?)
    requires num ==> ctx.DefOf(rhs).ConstantDef?
    ensures var w := if num then CastLike(env[rhs], GetField(st[x], i)) else env[rhs];
            Simulates(ctx, types, env, GenStore(ctx, types, sym, upd, x, lhs, rhs), st[x := SetField(st[x], i, w)])
  {
    CastConstantOk(ctx, env, lhs, rhs);
    var p := CastConstant(ctx, lhs, rhs);
    var env1 := Run(p.code, env);
    AgreeGrows(ctx, p.ctx, types, sym, env, env1, st);
    EmitUpdateOk(p.ctx, types, sym, upd, env1, st, x, i, p.b);
    SetFieldTyped(st[x], types[x], i, env1[p.b]);
    assert env1[p.b] == if num then CastLike(env[rhs], GetField(st[x], i)) else env[rhs];
    var s := SetVar(p.ctx.Fresh(Info(types[x], OtherDef)), types, sym, upd, x, Tmp(p.ctx.next));
    SimulatesThen(ctx, types, env, p.code, p.ctx, s.(code := [Update(Tmp(p.ctx.next), sym[x], i, p.b)] + s.code),
      st[x := SetField(st[x], i, env1[p.b])]);
  }

  // ----- When a plain assignment is taken for a field update -----

  /** The variables a block assigns. */
  function AssignedStmt(s: Stmt): set<Name>
    decreases s, 1
  {
    match s
    case Assign(x, _) => {x}
    case AssignField(x, _, _) => {x}
    case If(_, thn, hasElse, els) => Assigned(thn) + if hasElse then Assigned(els) else {}
  }

  function Assigned(ss: seq<Stmt>): set<Name>
    decreases ss, 0
  {
    if ss == [] then {} else AssignedStmt(ss[0]) + Assigned(ss[1..])
  }

  /** `e`, stored in a variable of type `t` without a cast, leaves it with a value that a field
      access defines; `risky` are the variables that hold such a value already. */
  predicate IsBareAccess(e: Expr, types: Types, t: Ty, risky: set<Name>) {
    match e
    case Field(_, _) => TypeOf(e, types) == Typed(t)
    case Var(y) => y in risky && DeclaredTy(types, y) == t
    case _ => false
  }

  /** The variables whose value a field access defines after a statement. */
  function RiskyAfterStmt(s: Stmt, types: Types, risky: set<Name>): set<Name> {
    match s
    case Assign(x, e) => if IsBareAccess(e, types, DeclaredTy(types, x), risky) then risky + {x} else risky - {x}
    case AssignField(x, _, _) => risky - {x}
    case If(_, _, _, _) => risky - AssignedStmt(s)
  }

  function RiskyAfter(ss: seq<Stmt>, types: Types, risky: set<Name>): set<Name> {
    if ss == [] then risky else RiskyAfter(ss[1..], types, RiskyAfterStmt(ss[0], types, risky))
  }

  /** No plain assignment goes to a variable that holds a bare field access. */
  predicate SafeStmt(s: Stmt, types: Types, risky: set<Name>)
    decreases s, 1
  {
    match s
    case Assign(x, _) => x !in risky
    case AssignField(_, _, _) => true
    case If(_, thn, hasElse, els) => Safe(thn, types, risky) && (hasElse ==> Safe(els, types, risky))
  }

  predicate Safe(ss: seq<Stmt>, types: Types, risky: set<Name>)
    decreases ss, 0
  {
    ss == [] || (SafeStmt(ss[0], types, risky) && Safe(ss[1..], types, RiskyAfterStmt(ss[0], types, risky)))
  }

  /** `risky` is exactly the set of variables whose current value a field access defines. */
  ghost predicate Tracks(ctx: Ctx, sym: Table, risky: set<Name>) {
    forall x :: x in sym ==> (x in risky <==> ctx.DefOf(sym[x]).AccessDef?)
  }

  /** Everything one statement or block keeps: agreement, the update table and the tracking. */
  ghost predicate Preserves(ctx: Ctx, types: Types, sym: Table, upd: Table, env: Env, r: Result, st: Store,
      changed: set<Name>, risky: set<Name>)
  {
    && Simulates(ctx, types, env, r, st)
    && Records(sym, upd, r.sym, r.upd, changed)
    && Tracks(r.ctx, r.sym, risky)
  }

  /** The changed variables, and no others, have a new value, and the update table has it too. */
  ghost predicate Records(sym: Table, upd: Table, sym': Table, upd': Table, changed: set<Name>) {
    && sym'.Keys == sym.Keys && changed <= sym.Keys
    && upd'.Keys == upd.Keys + changed
    && (forall x :: x in changed ==> upd'[x] == sym'[x])
    && (forall x :: x in sym && x !in changed ==> sym'[x] == sym[x])
    && (forall x :: x in upd && x !in changed ==> upd'[x] == upd[x])
  }

  lemma RecordsOne(sym: Table, upd: Table, x: Name, id: Id)
    requires x in sym
    ensures Records(sym, upd, sym[x := id], upd[x := id], {x})
  {}

  lemma GenStoreShape(ctx: Ctx, types: Types, sym: Table, upd: Table, x: Name, lhs: Id, rhs: Id)
    ensures var w := GenStore(ctx, types, sym, upd, x, lhs, rhs);
            x in w.sym && w.sym == sym[x := w.sym[x]] && w.upd == upd[x := w.sym[x]]
  {}

  lemma TracksGrows(ctx: Ctx, ctx': Ctx, types: Types, sym: Table, env: Env, st: Store, risky: set<Name>)
    requires Agree(ctx, types, sym, env, st) && ctx.Extends(ctx') && Tracks(ctx, sym, risky)
    ensures Tracks(ctx', sym, risky)
  {}

  lemma CastConstantDef(ctx: Ctx, env: Env, a: Id, b: Id)
    requires EnvOk(ctx, env) && a in env && b in env
    ensures var p := CastConstant(ctx, a, b);
      && (p.ctx.DefOf(p.a).AccessDef? <==> ctx.DefOf(a).AccessDef?) && (!ctx.DefOf(a).ConstantDef? ==> p.a == a)
      && (p.ctx.DefOf(p.b).AccessDef? <==> ctx.DefOf(b).AccessDef?)
      && (ctx.DefOf(b).AccessDef? ==> p.b == b)
      && (ctx.DefOf(a).AccessDef? ==> p.ctx.DefOf(p.a) == ctx.DefOf(a))
  {}

  /** What defines the value that an expression leaves behind. */
  lemma GenExprDef(ctx: Ctx, types: Types, sym: Table, env: Env, st: Store, e: Expr, risky: set<Name>)
    requires Agree(ctx, types, sym, env, st) && TypeOf(e, types).Typed? && Tracks(ctx, sym, risky)
    ensures var r := GenExpr(ctx, sym, e);
      r.ctx.DefOf(r.id).AccessDef? <==> IsBareAccess(e, types, TypeOf(e, types).t, risky)
  {}

  /** What defines a variable's value after a plain assignment. */
  lemma GenStoreDef(ctx: Ctx, types: Types, sym: Table, upd: Table, env: Env, st: Store, x: Name, rhs: Id,
      risky: set<Name>)
    requires Agree(ctx, types, sym, env, st) && rhs in env && x in types && Tracks(ctx, sym, risky) && x !in risky
    ensures var w := GenStore(ctx, types, sym, upd, x, sym[x], rhs);
      x in w.sym &&
        (w.ctx.DefOf(w.sym[x]).AccessDef? <==>
          ctx.DefOf(rhs).AccessDef? && CastTy(ctx.TyOf(rhs), types[x]) == ctx.TyOf(rhs))
  {
    CastConstantDef(ctx, env, sym[x], rhs);
    CastConstantOk(ctx, env, sym[x], rhs);
  }

  lemma TracksSet(ctx: Ctx, ctx': Ctx, types: Types, sym: Table, env: Env, st: Store, risky: set<Name>, x: Name, id: Id)
    requires Agree(ctx, types, sym, env, st) && ctx.Extends(ctx') && Tracks(ctx, sym, risky) && x in types
    ensures Tracks(ctx', sym[x := id], if ctx'.DefOf(id).AccessDef? then risky + {x} else risky - {x})
  {}

  lemma AssignSimulates(ctx: Ctx, types: Types, sym: Table, upd: Table, env: Env, st: Store, x: Name, e: Expr)
    requires Agree(ctx, types, sym, env, st)
    requires WellTypedStmt(Assign(x, e), types) && !ctx.DefOf(sym[x]).AccessDef?
    ensures Simulates(ctx, types, env, GenStmt(ctx, types, sym, upd, Assign(x, e)), ExecStmt(Assign(x, e), types, st))
  {
    var r := GenExpr(ctx, sym, e);
    var env1 := Run(r.code, env);
    GenExprOk(ctx, types, sym, env, st, e);
    AgreeGrows(ctx, r.ctx, types, sym, env, env1, st);
    GenStoreOk(r.ctx, types, sym, upd, env1, st, x, r.id);
    var w := GenStore(r.ctx, types, sym, upd, x, sym[x], r.id);
    SimulatesThen(ctx, types, env, r.code, r.ctx, w, ExecStmt(Assign(x, e), types, st));
  }

  lemma AssignOk(ctx: Ctx, types: Types, sym: Table, upd: Table, env: Env, st: Store, x: Name, e: Expr,
      risky: set<Name>)
    requires Agree(ctx, types, sym, env, st) && Tracks(ctx, sym, risky)
    requires WellTypedStmt(Assign(x, e), types) && x !in risky
    ensures var s := Assign(x, e);
      Preserves(ctx, types, sym, upd, env, GenStmt(ctx, types, sym, upd, s), ExecStmt(s, types, st), {x},
        RiskyAfterStmt(s, types, risky))
  {
    AssignSimulates(ctx, types, sym, upd, env, st, x, e);
    var r := GenExpr(ctx, sym, e);
    var env1 := Run(r.code, env);
    GenExprOk(ctx, types, sym, env, st, e);
    GenExprDef(ctx, types, sym, env, st, e, risky);
    AgreeGrows(ctx, r.ctx, types, sym, env, env1, st);
    TracksGrows(ctx, r.ctx, types, sym, env, st, risky);
    var w := GenStore(r.ctx, types, sym, upd, x, sym[x], r.id);
    GenStoreShape(r.ctx, types, sym, upd, x, sym[x], r.id);
    RecordsOne(sym, upd, x, w.sym[x]);
    GenStoreDef(r.ctx, types, sym, upd, env1, st, x, r.id, risky);
    TracksSet(ctx, w.ctx, types, sym, env, st, risky, x, w.sym[x]);
  }

  lemma AssignFieldSimulates(ctx: Ctx, types: Types, sym: Table, upd: Table, env: Env, st: Store, x: Name, i: nat,
      e: Expr)
    requires Agree(ctx, types, sym, env, st) && WellTypedStmt(AssignField(x, i, e), types)
    ensures Simulates(ctx, types, env, GenStmt(ctx, types, sym, upd, AssignField(x, i, e)),
      ExecStmt(AssignField(x, i, e), types, st))
    ensures var w := GenStmt(ctx, types, sym, upd, AssignField(x, i, e)); !w.ctx.DefOf(w.sym[x]).AccessDef?
  {
    var st' := ExecStmt(AssignField(x, i, e), types, st);
    var l := GenAccess(ctx, sym[x], i);
    GenAccessOk(ctx, env, sym[x], i);
    var env1 := Run(l.code, env);
    AgreeGrows(ctx, l.ctx, types, sym, env, env1, st);
    var r := GenExpr(l.ctx, sym, e);
    GenExprOk(l.ctx, types, sym, env1, st, e);
    var env2 := Run(r.code, env1);
    AgreeGrows(l.ctx, r.ctx, types, sym, env1, env2, st);
    GenFieldStoreOk(r.ctx, types, sym, upd, env2, st, x, i, l.id, r.id, e.Num?);
    var w := GenStore(r.ctx, types, sym, upd, x, l.id, r.id);
    SimulatesThen(l.ctx, types, env1, r.code, r.ctx, w, st');
    SimulatesThen(ctx, types, env, l.code, l.ctx, w.(code := r.code + w.code), st');
    FieldStoreDef(r.ctx, types, sym, upd, env2, x, i, l.id, r.id);
  }

  lemma AssignFieldOk(ctx: Ctx, types: Types, sym: Table, upd: Table, env: Env, st: Store, x: Name, i: nat, e: Expr,
      risky: set<Name>)
    requires Agree(ctx, types, sym, env, st) && Tracks(ctx, sym, risky)
    requires WellTypedStmt(AssignField(x, i, e), types)
    ensures var s := AssignField(x, i, e);
      Preserves(ctx, types, sym, upd, env, GenStmt(ctx, types, sym, upd, s), ExecStmt(s, types, st), {x},
        RiskyAfterStmt(s, types, risky))
  {
    AssignFieldSimulates(ctx, types, sym, upd, env, st, x, i, e);
    var l := GenAccess(ctx, Lookup(sym, x), i);
    var r := GenExpr(l.ctx, sym, e);
    var w := GenStore(r.ctx, types, sym, upd, x, l.id, r.id);
    GenStoreShape(r.ctx, types, sym, upd, x, l.id, r.id);
    RecordsOne(sym, upd, x, w.sym[x]);
    TracksSet(ctx, w.ctx, types, sym, env, st, risky, x, w.sym[x]);
  }

  lemma FieldStoreDef(ctx: Ctx, types: Types, sym: Table, upd: Table, env: Env, x: Name, i: nat, lhs: Id, rhs: Id)
    requires EnvOk(ctx, env) && lhs in env && rhs in env && x in types && x in sym && sym[x] in env
    requires ctx.DefOf(lhs) == AccessDef(sym[x], i) && ctx.TyOf(sym[x]) == types[x]
    ensures var w := GenStore(ctx, types, sym, upd, x, lhs, rhs);
      x in w.sym && !w.ctx.DefOf(w.sym[x]).AccessDef?
  {
    CastConstantDef(ctx, env, lhs, rhs);
    CastConstantOk(ctx, env, lhs, rhs);
  }

  // ----- If and else -----

  /** After the two merges both tables list the variables that either branch changed, each with
      its value at the end of that branch. */
  lemma MergedTables(sym: Table, t: Result, f: Result, ct: set<Name>, cf: set<Name>)
    requires Records(sym, map[], t.sym, t.upd, ct) && Records(sym, map[], f.sym, f.upd, cf)
    ensures var elseTable := Merge(t.upd, f.upd, sym);
      var thenTable := Merge(elseTable, t.upd, sym);
      && thenTable.Keys == elseTable.Keys == ct + cf
      && forall k :: k in ct + cf ==> thenTable[k] == t.sym[k] && elseTable[k] == f.sym[k]
  {}

  /** The results of an `if` are new values with the declared types. */
  lemma ResultsOk(ctx: Ctx, types: Types, env: Env, ys: Table, envB: Env)
    requires EnvOk(ctx, env) && forall k :: k in ys ==> k in types && HasTy(Get(envB, ys[k]), types[k])
    ensures var env' := env + Yielded(ctx.next, ys, envB); var ctx' := ctx.FreshResults(types, ys.Keys);
            EnvOk(ctx', env') && Grows(env, env') && ctx.Extends(ctx')
  {
    var r := Yielded(ctx.next, ys, envB);
    forall d | d in r ensures d !in env && HasTy(r[d], types[d.x]) {}
  }

  /** One branch of an `if`: its yields, bound to the results, make the outer symbol table agree
      with the store the branch produces. */
  lemma BranchJoins(ctx: Ctx, types: Types, sym: Table, env: Env, ys: Table, b: Result, st: Store, ctx0: Ctx)
    requires EnvOk(ctx, env) && b.ctx.Extends(ctx) && Simulates(ctx0, types, env, b, st)
    requires sym.Keys == types.Keys && ys.Keys <= sym.Keys && forall k :: k in ys ==> ys[k] == b.sym[k]
    requires forall x :: x in sym ==> sym[x] in env && (x !in ys ==> b.sym[x] == sym[x])
    ensures var env' := env + Yielded(ctx.next, ys, Run(b.code, env));
            && Grows(env, env') && ctx.Extends(ctx.FreshResults(types, ys.Keys))
            && Agree(ctx.FreshResults(types, ys.Keys), types, sym + Results(ctx.next, ys.Keys), env', st)
  {
    var envB := Run(b.code, env);
    ResultsOk(ctx, types, env, ys, envB);
    ResultsBound(ctx, types, sym, env, ys, envB);
    var ctx', sym' := ctx.FreshResults(types, ys.Keys), sym + Results(ctx.next, ys.Keys);
    var env' := env + Yielded(ctx.next, ys, envB);
    forall x | x in types ensures sym'[x] in env' && env'[sym'[x]] == st[x] && ctx'.info[sym'[x]].ty == types[x] {
      if x !in ys {
        assert sym'[x] == sym[x] == b.sym[x];
      }
    }
  }

  /** Where the outer symbol table finds its values after an `if`. */
  lemma ResultsBound(ctx: Ctx, types: Types, sym: Table, env: Env, ys: Table, envB: Env)
    requires EnvOk(ctx, env) && sym.Keys == types.Keys && ys.Keys <= sym.Keys && forall x :: x in sym ==> sym[x] in env
    ensures var env' := env + Yielded(ctx.next, ys, envB); var sym' := sym + Results(ctx.next, ys.Keys);
      && sym'.Keys == types.Keys
      && (forall x :: x in types && x in ys ==> sym'[x] in env' && env'[sym'[x]] == Get(envB, ys[x]))
      && (forall x :: x in types && x in ys ==> ctx.FreshResults(types, ys.Keys).TyOf(sym'[x]) == types[x])
      && (forall x :: x in types && x !in ys ==> sym'[x] == sym[x] && sym[x] in env' && env'[sym[x]] == env[sym[x]])
  {
    var sym' := sym + Results(ctx.next, ys.Keys);
    forall x | x in types && x in ys ensures sym'[x] == IfRes(ctx.next, x) {}
    assert sym'.Keys == types.Keys;
  }

  lemma RunIf(op: Inst, env: Env, v: Val)
    requires op.IfOp? && Get(env, op.cond) == v
    ensures Run([op], env) ==
      if Truthy(v) then env + Yielded(op.num, op.thnYields, Run(op.thn, env))
        else env + Yielded(op.num, op.elsYields, Run(op.els, env))
  {
    RunOne(op, env);
  }

  lemma EnvOkGrows(ctx: Ctx, env: Env, env': Env)
    requires EnvOk(ctx, env') && Grows(env, env')
    ensures EnvOk(ctx, env)
  {}

  /** The `if` operation itself. */
  lemma IfOpSimulates(types: Types, sym: Table, upd: Table, env: Env, st: Store, c: ExprResult,
      t: Result, f: Result, stT: Store, stF: Store, ct: set<Name>, cf: set<Name>)
    requires Agree(c.ctx, types, sym, env, st)
    requires Simulates(c.ctx, types, env, t, stT) && Records(sym, map[], t.sym, t.upd, ct)
    requires Simulates(t.ctx, types, env, f, stF) && Records(sym, map[], f.sym, f.upd, cf)
    ensures var elseTable := Merge(t.upd, f.upd, sym); var thenTable := Merge(elseTable, t.upd, sym);
      var op := IfOp(f.ctx.next, c.id, t.code, thenTable, f.code, elseTable);
      Simulates(c.ctx, types, env, GenIf(types, sym, upd, c, t, f).(code := [op]),
                if Truthy(Get(env, c.id)) then stT else stF)
  {
    var elseTable := Merge(t.upd, f.upd, sym);
    var thenTable := Merge(elseTable, t.upd, sym);
    MergedTables(sym, t, f, ct, cf);
    EnvOkGrows(f.ctx, env, Run(f.code, env));
    if Truthy(Get(env, c.id)) {
      BranchJoins(f.ctx, types, sym, env, thenTable, t, stT, c.ctx);
    } else {
      BranchJoins(f.ctx, types, sym, env, elseTable, f, stF, t.ctx);
    }
    RunIf(IfOp(f.ctx.next, c.id, t.code, thenTable, f.code, elseTable), env, Get(env, c.id));
  }

  /** The whole `if`, from what its branches preserve. */
  lemma GenIfSimulates(ctx: Ctx, types: Types, sym: Table, upd: Table, env: Env, st: Store, c: ExprResult, v: Val,
      ty: Ty, t: Result, f: Result, stT: Store, stF: Store, ct: set<Name>, cf: set<Name>)
    requires Agree(ctx, types, sym, env, st) && Computes(ctx, env, c, v, ty)
    requires Simulates(c.ctx, types, Run(c.code, env), t, stT) && Records(sym, map[], t.sym, t.upd, ct)
    requires Simulates(t.ctx, types, Run(c.code, env), f, stF) && Records(sym, map[], f.sym, f.upd, cf)
    ensures Simulates(ctx, types, env, GenIf(types, sym, upd, c, t, f), if Truthy(v) then stT else stF)
  {
    var env1 := Run(c.code, env);
    AgreeGrows(ctx, c.ctx, types, sym, env, env1, st);
    IfOpSimulates(types, sym, upd, env1, st, c, t, f, stT, stF, ct, cf);
    var elseTable := Merge(t.upd, f.upd, sym);
    var thenTable := Merge(elseTable, t.upd, sym);
    var op := IfOp(f.ctx.next, c.id, t.code, thenTable, f.code, elseTable);
    var w := GenIf(types, sym, upd, c, t, f);
    SimulatesThen(ctx, types, env, c.code, c.ctx, w.(code := [op]), if Truthy(v) then stT else stF);
  }

  lemma GenIfRecords(types: Types, sym: Table, upd: Table, c: ExprResult, t: Result, f: Result, ct: set<Name>,
      cf: set<Name>)
    requires Records(sym, map[], t.sym, t.upd, ct) && Records(sym, map[], f.sym, f.upd, cf)
    ensures var r := GenIf(types, sym, upd, c, t, f); Records(sym, upd, r.sym, r.upd, ct + cf)
  {
    MergedTables(sym, t, f, ct, cf);
    RecordsResults(sym, upd, f.ctx.next, ct + cf);
  }

  lemma RecordsResults(sym: Table, upd: Table, n: nat, keys: set<Name>)
    requires keys <= sym.Keys
    ensures Records(sym, upd, sym + Results(n, keys), upd + Results(n, keys), keys)
  {}

  lemma GenIfDefs(types: Types, sym: Table, upd: Table, c: ExprResult, t: Result, f: Result, ct: set<Name>,
      cf: set<Name>, x: Name)
    requires Records(sym, map[], t.sym, t.upd, ct) && Records(sym, map[], f.sym, f.upd, cf) && x in ct + cf
    ensures var r := GenIf(types, sym, upd, c, t, f); x in r.sym && !r.ctx.DefOf(r.sym[x]).AccessDef?
  {
    MergedTables(sym, t, f, ct, cf);
    assert GenIf(types, sym, upd, c, t, f).sym[x] == IfRes(f.ctx.next, x);
  }

  // ----- The theorem -----

  lemma {:induction false} GenStmtOk(ctx: Ctx, types: Types, sym: Table, upd: Table, env: Env, st: Store, s: Stmt,
      risky: set<Name>)
    requires Agree(ctx, types, sym, env, st) && Tracks(ctx, sym, risky)
    requires WellTypedStmt(s, types) && SafeStmt(s, types, risky)
    ensures Preserves(ctx, types, sym, upd, env, GenStmt(ctx, types, sym, upd, s), ExecStmt(s, types, st),
                      AssignedStmt(s), RiskyAfterStmt(s, types, risky))
    decreases s, 1
  {
    match s
    case Assign(x, e) => AssignOk(ctx, types, sym, upd, env, st, x, e, risky);
    case AssignField(x, i, e) => AssignFieldOk(ctx, types, sym, upd, env, st, x, i, e, risky);
    case If(cond, thn, hasElse, els) =>
      var c := GenExpr(ctx, sym, cond);
      GenExprOk(ctx, types, sym, env, st, cond);
      var env1 := Run(c.code, env);
      AgreeGrows(ctx, c.ctx, types, sym, env, env1, st);
      TracksGrows(ctx, c.ctx, types, sym, env, st, risky);
      var t := Gen(c.ctx, types, sym, map[], thn);
      GenOk(c.ctx, types, sym, map[], env1, st, thn, risky);
      EnvOkGrows(t.ctx, env1, Run(t.code, env1));
      AgreeGrows(c.ctx, t.ctx, types, sym, env1, env1, st);
      TracksGrows(c.ctx, t.ctx, types, sym, env1, st, risky);
      var f := if hasElse then Gen(t.ctx, types, sym, map[], els) else Result(t.ctx, sym, map[], []);
      if hasElse {
        GenOk(t.ctx, types, sym, map[], env1, st, els, risky);
      }
      var stF := if hasElse then Exec(els, types, st) else st;
      var cf := if hasElse then Assigned(els) else {};
      GenIfSimulates(ctx, types, sym, upd, env, st, c, Eval(cond, st), TypeOf(cond, types).t, t, f,
        Exec(thn, types, st), stF, Assigned(thn), cf);
      GenIfRecords(types, sym, upd, c, t, f, Assigned(thn), cf);
      IfTracks(ctx, types, sym, upd, env, st, c, t, f, Assigned(thn), cf, risky);
  }

  lemma IfTracks(ctx: Ctx, types: Types, sym: Table, upd: Table, env: Env, st: Store, c: ExprResult, t: Result,
      f: Result, ct: set<Name>, cf: set<Name>, risky: set<Name>)
    requires Agree(ctx, types, sym, env, st) && Tracks(ctx, sym, risky)
    requires ctx.Extends(GenIf(types, sym, upd, c, t, f).ctx)
    requires Records(sym, map[], t.sym, t.upd, ct) && Records(sym, map[], f.sym, f.upd, cf)
    ensures Tracks(GenIf(types, sym, upd, c, t, f).ctx, GenIf(types, sym, upd, c, t, f).sym, risky - (ct + cf))
  {
    var r := GenIf(types, sym, upd, c, t, f);
    GenIfRecords(types, sym, upd, c, t, f, ct, cf);
    forall x | x in r.sym ensures x in risky - (ct + cf) <==> r.ctx.DefOf(r.sym[x]).AccessDef? {
      if x in ct + cf {
        GenIfDefs(types, sym, upd, c, t, f, ct, cf, x);
      } else {
        assert r.sym[x] == sym[x];
      }
    }
  }

  /** Every block: running the generated operations takes the values in the symbol table to the
      final store of the imperative program. */
  lemma {:induction false} GenOk(ctx: Ctx, types: Types, sym: Table, upd: Table, env: Env, st: Store, ss: seq<Stmt>,
      risky: set<Name>)
    requires Agree(ctx, types, sym, env, st) && Tracks(ctx, sym, risky)
    requires WellTyped(ss, types) && Safe(ss, types, risky)
    ensures Preserves(ctx, types, sym, upd, env, Gen(ctx, types, sym, upd, ss), Exec(ss, types, st), Assigned(ss),
      RiskyAfter(ss, types, risky))
    decreases ss, 0
  {
    if ss != [] {
      var a := GenStmt(ctx, types, sym, upd, ss[0]);
      GenStmtOk(ctx, types, sym, upd, env, st, ss[0], risky);
      var st1 := ExecStmt(ss[0], types, st);
      var env1 := Run(a.code, env);
      var risky1 := RiskyAfterStmt(ss[0], types, risky);
      GenOk(a.ctx, types, a.sym, a.upd, env1, st1, ss[1..], risky1);
      var b := Gen(a.ctx, types, a.sym, a.upd, ss[1..]);
      SimulatesThen(ctx, types, env, a.code, a.ctx, b, Exec(ss, types, st));
      RecordsTwice(sym, upd, a.sym, a.upd, b.sym, b.upd, AssignedStmt(ss[0]), Assigned(ss[1..]));
    }
  }

  lemma RecordsTwice(sym: Table, upd: Table, sym1: Table, upd1: Table, sym2: Table, upd2: Table, c1: set<Name>,
      c2: set<Name>)
    requires Records(sym, upd, sym1, upd1, c1) && Records(sym1, upd1, sym2, upd2, c2)
    ensures Records(sym, upd, sym2, upd2, c1 + c2)
  {}

  // ----- The unsafe assignment -----

  /** Assigned to a variable that holds a field access, any value turns into an update of the
      struct, so the variable ends up with the type of the struct. */
  lemma AssignBecomesUpdate(ctx: Ctx, types: Types, sym: Table, upd: Table, env: Env, st: Store, x: Name, e: Expr)
    requires Agree(ctx, types, sym, env, st) && WellTypedStmt(Assign(x, e), types) && ctx.DefOf(sym[x]).AccessDef?
    ensures var w := GenStmt(ctx, types, sym, upd, Assign(x, e));
      x in w.sym && w.ctx.TyOf(w.sym[x]) == ctx.TyOf(ctx.DefOf(sym[x]).input)
  {
    var r := GenExpr(ctx, sym, e);
    GenExprOk(ctx, types, sym, env, st, e);
    CastConstantDef(r.ctx, Run(r.code, env), sym[x], r.id);
    CastConstantOk(r.ctx, Run(r.code, env), sym[x], r.id);
  }

  /** One plain assignment keeps the symbol table in agreement with the store exactly when no
      field access defines the variable's current value. */
  lemma AssignPreservesIff(ctx: Ctx, types: Types, sym: Table, upd: Table, env: Env, st: Store, x: Name, e: Expr)
    requires Agree(ctx, types, sym, env, st) && WellTypedStmt(Assign(x, e), types)
    ensures Simulates(ctx, types, env, GenStmt(ctx, types, sym, upd, Assign(x, e)), ExecStmt(Assign(x, e), types, st))
       <==> !ctx.DefOf(sym[x]).AccessDef?
  {
    if ctx.DefOf(sym[x]).AccessDef? {
      var a := ctx.DefOf(sym[x]);
      AssignBecomesUpdate(ctx, types, sym, upd, env, st, x, e);
      assert types[x] == ctx.TyOf(a.input).fields[a.index] != ctx.TyOf(a.input);
    } else {
      AssignSimulates(ctx, types, sym, upd, env, st, x, e);
    }
  }

  /** The symbol table agrees with the store after the statement and, inside an `if`, after
      every statement of either branch, each entered from the state after the condition. */
  ghost predicate FaithfulStmt(ctx: Ctx, types: Types, sym: Table, upd: Table, env: Env, st: Store, s: Stmt)
    decreases s, 1
  {
    && (s.If? ==>
          var c := GenExpr(ctx, sym, s.cond);
          var t := Gen(c.ctx, types, sym, map[], s.thn);
          && Faithful(c.ctx, types, sym, map[], Run(c.code, env), st, s.thn)
          && (s.hasElse ==> Faithful(t.ctx, types, sym, map[], Run(c.code, env), st, s.els)))
    && Simulates(ctx, types, env, GenStmt(ctx, types, sym, upd, s), ExecStmt(s, types, st))
  }

  ghost predicate Faithful(ctx: Ctx, types: Types, sym: Table, upd: Table, env: Env, st: Store, ss: seq<Stmt>)
    decreases ss, 0
  {
    ss == [] ||
      var a := GenStmt(ctx, types, sym, upd, ss[0]);
      && FaithfulStmt(ctx, types, sym, upd, env, st, ss[0])
      && Faithful(a.ctx, types, a.sym, a.upd, Run(a.code, env), ExecStmt(ss[0], types, st), ss[1..])
  }

  lemma {:induction false} FaithfulStmtIff(ctx: Ctx, types: Types, sym: Table, upd: Table, env: Env, st: Store, s: Stmt,
      risky: set<Name>)
    requires Agree(ctx, types, sym, env, st) && Tracks(ctx, sym, risky) && WellTypedStmt(s, types)
    ensures FaithfulStmt(ctx, types, sym, upd, env, st, s) <==> SafeStmt(s, types, risky)
    decreases s, 1
  {
    match s
    case Assign(x, e) => AssignPreservesIff(ctx, types, sym, upd, env, st, x, e);
    case AssignField(x, i, e) => AssignFieldSimulates(ctx, types, sym, upd, env, st, x, i, e);
    case If(cond, thn, hasElse, els) =>
      var c := GenExpr(ctx, sym, cond);
      GenExprOk(ctx, types, sym, env, st, cond);
      var env1 := Run(c.code, env);
      AgreeGrows(ctx, c.ctx, types, sym, env, env1, st);
      TracksGrows(ctx, c.ctx, types, sym, env, st, risky);
      FaithfulIff(c.ctx, types, sym, map[], env1, st, thn, risky);
      if Safe(thn, types, risky) {
        var t := Gen(c.ctx, types, sym, map[], thn);
        GenOk(c.ctx, types, sym, map[], env1, st, thn, risky);
        EnvOkGrows(t.ctx, env1, Run(t.code, env1));
        AgreeGrows(c.ctx, t.ctx, types, sym, env1, env1, st);
        TracksGrows(c.ctx, t.ctx, types, sym, env1, st, risky);
        if hasElse {
          FaithfulIff(t.ctx, types, sym, map[], env1, st, els, risky);
        }
        if SafeStmt(s, types, risky) {
          GenStmtOk(ctx, types, sym, upd, env, st, s, risky);
        }
      }
  }

  /** The generator is right after every statement exactly when the program never assigns to a
      variable that holds a bare field access, which the program text alone decides. */
  lemma {:induction false} FaithfulIff(ctx: Ctx, types: Types, sym: Table, upd: Table, env: Env, st: Store,
      ss: seq<Stmt>, risky: set<Name>)
    requires Agree(ctx, types, sym, env, st) && Tracks(ctx, sym, risky) && WellTyped(ss, types)
    ensures Faithful(ctx, types, sym, upd, env, st, ss) <==> Safe(ss, types, risky)
    decreases ss, 0
  {
    if ss != [] {
      FaithfulStmtIff(ctx, types, sym, upd, env, st, ss[0], risky);
      if SafeStmt(ss[0], types, risky) {
        var a := GenStmt(ctx, types, sym, upd, ss[0]);
        GenStmtOk(ctx, types, sym, upd, env, st, ss[0], risky);
        FaithfulIff(a.ctx, types, a.sym, a.upd, Run(a.code, env), ExecStmt(ss[0], types, st), ss[1..],
          RiskyAfterStmt(ss[0], types, risky));
      }
    }
  }

  /** The two assignments `y = s.f; y = n`, from any state in which they are well typed: the
      first is translated correctly, the second never is. */
  lemma ReassignedFieldCopyIsLost(ctx: Ctx, types: Types, sym: Table, upd: Table, env: Env, st: Store, s: Name, f: nat,
      y: Name, n: nat)
    requires Agree(ctx, types, sym, env, st) && !ctx.DefOf(Lookup(sym, y)).AccessDef?
    requires TypeOf(Field(s, f), types) == TypeOf(Var(y), types) && TypeOf(Var(y), types).Typed? && types[y].IntT?
    ensures
      var first, second := Assign(y, Field(s, f)), Assign(y, Num(n));
      var a := GenStmt(ctx, types, sym, upd, first);
      var st1 := ExecStmt(first, types, st);
      && Simulates(ctx, types, env, a, st1)
      && !Simulates(a.ctx, types, Run(a.code, env), GenStmt(a.ctx, types, a.sym, a.upd, second),
        ExecStmt(second, types, st1))
  {
    var first := Assign(y, Field(s, f));
    AssignSimulates(ctx, types, sym, upd, env, st, y, Field(s, f));
    var a := GenStmt(ctx, types, sym, upd, first);
    var st1 := ExecStmt(first, types, st);
    var risky := set x | x in sym && ctx.DefOf(sym[x]).AccessDef?;
    AssignOk(ctx, types, sym, upd, env, st, y, Field(s, f), risky);
    assert a.ctx.DefOf(a.sym[y]).AccessDef?;
    AssignPreservesIff(a.ctx, types, a.sym, a.upd, Run(a.code, env), st1, y, Num(n));
  }
}
