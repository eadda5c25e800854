/** The allocator of local variables for all kinds of declarations: scalars, arrays in one or two dimensions,
    structs and arrays of structs, in nested scopes. */
module FrameAlloc {
  import opened Basics
  import opened Cupid
  import opened Codegen
  import opened Frames

  /** An array of structs is an `Array` whose elements have the size of the struct. */
  datatype Local =
    | Scalar(x: string)
    | Array(x: string, count: nat, element: nat)
    | Grid(x: string, rows: nat, columns: nat, element: nat)
    | Struct(x: string, size: nat)
    | Nested(locals: Locals)

  datatype Locals = LNil | LCons(head: Local, tail: Locals)

  /** The bytes a declaration takes. */
  function Space(l: Local): nat
  {
    match l
    case Scalar(_) => 4
    case Array(_, count, element) => Align4(count * element)
    case Grid(_, rows, columns, element) => Align4(rows * (columns * element))
    case Struct(_, size) => Align4(size)
    case Nested(_) => 0
  }

  function LocalName(l: Local): Name
    requires !l.Nested?
  {
    Name(l.x, l.Scalar?)
  }

  /** The scope after a declaration; a nested scope gives its names and bytes back but not the depth it reached. */
  function After(l: Local, env: Env): Env
  {
    if l.Nested? then env.(deepest := AfterAll(l.locals, env).deepest) else Declare(env, LocalName(l), Space(l))
  }

  function AfterAll(ls: Locals, env: Env): Env
  {
    match ls case LNil => env case LCons(l, tail) => AfterAll(tail, After(l, env))
  }

  /** The scopes that exist at one time or another while the declarations are read. */
  function Times(l: Local, env: Env): seq<Env>
  {
    (if l.Nested? then AllTimes(l.locals, env) else []) + [After(l, env)]
  }

  function AllTimes(ls: Locals, env: Env): seq<Env>
  {
    match ls case LNil => [] case LCons(l, tail) => Times(l, env) + AllTimes(tail, After(l, env))
  }

  lemma {:induction false} DepthGrows(l: Local, env: Env)
    ensures After(l, env).deepest <= env.deepest
    ensures env.deepest <= env.lo ==> After(l, env).deepest <= After(l, env).lo
  {
    if l.Nested? { DepthGrowsAll(l.locals, env); }
  }

  lemma {:induction false} DepthGrowsAll(ls: Locals, env: Env)
    ensures AfterAll(ls, env).deepest <= env.deepest
    ensures env.deepest <= env.lo ==> AfterAll(ls, env).deepest <= AfterAll(ls, env).lo
  {
    if ls.LCons? {
      DepthGrows(ls.head, env);
      DepthGrowsAll(ls.tail, After(ls.head, env));
    }
  }

  lemma {:induction false} TimesLaid(l: Local, env: Env, z: Zone)
    requires Laid(env, z) && env.deepest <= env.lo && z.bot <= After(l, env).deepest
    ensures Laid(After(l, env), z) && forall e :: e in Times(l, env) ==> Laid(e, z)
    decreases l, 0
  {
    hide Laid;
    if l.Nested? {
      AllTimesLaid(l.locals, env, z);
      DepthLaid(env, z, After(l, env).deepest);
    } else {
      DeclareLaid(env, z, LocalName(l), Space(l));
    }
  }

  lemma DepthLaid(env: Env, z: Zone, deepest: int)
    requires Laid(env, z)
    ensures Laid(env.(deepest := deepest), z)
  {
  }

  lemma {:induction false} AllTimesLaid(ls: Locals, env: Env, z: Zone)
    requires Laid(env, z) && env.deepest <= env.lo && z.bot <= AfterAll(ls, env).deepest
    ensures forall e :: e in AllTimes(ls, env) ==> Laid(e, z)
    decreases ls, 0
  {
    hide Laid;
    if ls.LCons? {
      var env1 := After(ls.head, env);
      DepthGrows(ls.head, env);
      DepthGrowsAll(ls.tail, env1);
      TimesLaid(ls.head, env, z);
      AllTimesLaid(ls.tail, env1, z);
    }
  }

  /** At any time the slots of the live variables of a function are pairwise disjoint and lie in its parameters or
      in the frame that is patched into its prologue when the body has been read. */
  lemma LocalsApart(params: seq<string>, ls: Locals)
    ensures AfterAll(ls, FuncEnv(params)).deepest <= 0
    ensures var frame := FrameSize(AfterAll(ls, FuncEnv(params)).deepest);
      frame % 16 == 0 && forall e :: e in AllTimes(ls, FuncEnv(params)) ==> Laid(e, Zone(0 - frame, 8 + 4 * |params|))
  {
    hide Laid;
    var env := FuncEnv(params);
    DepthGrowsAll(ls, env);
    var frame: int := FrameSize(AfterAll(ls, env).deepest);
    StartLaid(params, frame);
    AllTimesLaid(ls, env, Zone(0 - frame, 8 + 4 * |params|));
  }

  lemma StartLaid(params: seq<string>, frame: nat)
    ensures Laid(FuncEnv(params), Zone(0 - frame, 8 + 4 * |params|))
  {
  }
}
