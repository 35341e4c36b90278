/**
 The backend: a map from key to value and optional absolute deadline, and the Redis commands the
 bridge rewrites. A passed deadline removes nothing; commands outside this set are an arbitrary
 deterministic function of the store.
 */
module Store {
  import opened Bytes
  import Decimal

  datatype Slot = Slot(value: Bytes, deadline: Option<int>)

  type Store = map<Bytes, Slot>

  /** A null reply reaches the caller as an error value, like an error. */
  datatype Reply = Done | Null | Error

  datatype Outcome = Outcome(store: Store, reply: Reply)

  type Others = (Store, Args) -> Outcome

  // ---- names and options ----

  function UpperByte(b: Byte): Byte {
    if 97 <= b <= 122 then b - 32 else b
  }

  function ToUpper(s: Bytes): Bytes {
    seq(|s|, i requires 0 <= i < |s| => UpperByte(s[i]))
  }

  datatype Name = Set | SetEx | PSetEx | Expire | PExpire | ExpireAt | PExpireAt | Persist | Del | Append | Other

  function NameOf(arg: Bytes): Name {
    var u := ToUpper(arg);
    if u == Lit("SET") then Set
    else if u == Lit("SETEX") then SetEx
    else if u == Lit("PSETEX") then PSetEx
    else if u == Lit("EXPIRE") then Expire
    else if u == Lit("PEXPIRE") then PExpire
    else if u == Lit("EXPIREAT") then ExpireAt
    else if u == Lit("PEXPIREAT") then PExpireAt
    else if u == Lit("PERSIST") then Persist
    else if u == Lit("DEL") then Del
    else if u == Lit("APPEND") then Append
    else Other
  }

  const SET: Bytes := Lit("SET")
  const PEXPIREAT: Bytes := Lit("PEXPIREAT")

  lemma LiteralNames()
    ensures NameOf(SET) == Set && NameOf(PEXPIREAT) == PExpireAt
  {
    assert ToUpper(SET) == Lit("SET");
    assert ToUpper(PEXPIREAT) == Lit("PEXPIREAT");
  }

  datatype Opt = Ex | Px | ExAt | PxAt | Nx | Xx | KeepTtl | Get | Gt | Lt | Unknown

  function OptionOf(arg: Bytes): Opt {
    var u := ToUpper(arg);
    if u == Lit("EX") then Ex
    else if u == Lit("PX") then Px
    else if u == Lit("EXAT") then ExAt
    else if u == Lit("PXAT") then PxAt
    else if u == Lit("NX") then Nx
    else if u == Lit("XX") then Xx
    else if u == Lit("KEEPTTL") then KeepTtl
    else if u == Lit("GET") then Get
    else if u == Lit("GT") then Gt
    else if u == Lit("LT") then Lt
    else Unknown
  }

  predicate TakesValue(o: Opt) {
    o.Ex? || o.Px? || o.ExAt? || o.PxAt?
  }

  predicate IsRelative(o: Opt) {
    o.Ex? || o.Px?
  }

  predicate InSeconds(o: Opt) {
    o.Ex? || o.ExAt?
  }

  /** Redis reads an integer only in its canonical decimal form. */
  function RedisInt(s: Bytes): (r: Option<int>)
    ensures r.Some? ==> IsInt64(r.value) && Decimal.ParseInt(s) == Decimal.Good(r.value)
  {
    Decimal.ParseIntInRange(s);
    match Decimal.ParseInt(s)
    case Good(n) => if Decimal.Print(n) == s then Some(n) else None
    case _ => None
  }

  lemma RedisIntOfPrinted(n: int)
    requires IsInt64(n)
    ensures RedisInt(Decimal.Print(n)) == Some(n)
  {
    Decimal.PrintParse(n);
  }

  // ---- SET ----

  datatype SetOptions = SetOptions(nx: bool, xx: bool, get: bool, keep: bool, unit: Option<Opt>, amount: Bytes)

  const NO_OPTIONS := SetOptions(false, false, false, false, None, [])

  /** One option without a value. */
  function AddFlag(o: SetOptions, f: Opt): Option<SetOptions> {
    match f
    case Nx => if o.xx then None else Some(o.(nx := true))
    case Xx => if o.nx then None else Some(o.(xx := true))
    case Get => Some(o.(get := true))
    case KeepTtl => if o.unit.Some? then None else Some(o.(keep := true))
    case _ => None
  }

  /** Redis' reading of the arguments behind the value; None is a syntax error. */
  function ParseSet(opts: Args, o: SetOptions): Option<SetOptions>
    decreases |opts|
  {
    if opts == [] then Some(o)
    else
      var f := OptionOf(opts[0]);
      if TakesValue(f) then
        if o.keep || o.unit.Some? || |opts| < 2 then None
        else ParseSet(opts[2..], o.(unit := Some(f), amount := opts[1]))
      else
        match AddFlag(o, f)
        case None => None
        case Some(o') => ParseSet(opts[1..], o')
  }

  function Millis(unit: Opt, n: int): int {
    if InSeconds(unit) then n * 1000 else n
  }

  /** The absolute deadline of `n` units; None is Redis' "invalid expire time". */
  function SetDeadline(unit: Opt, n: int, now: int): Option<int> {
    var ms := Millis(unit, n);
    var d := if IsRelative(unit) then ms + now else ms;
    if n > 0 && ms < TWO_63 && 0 < d < TWO_63 then Some(d) else None
  }

  function OptionsDeadline(o: SetOptions, now: int): Option<int>
  {
    if o.unit.None? then None
    else
      match RedisInt(o.amount)
      case None => None
      case Some(n) => SetDeadline(o.unit.value, n, now)
  }

  /** A SET whose options have been read; `d` is its new deadline, if it names one. */
  function DoSet(st: Store, key: Bytes, value: Bytes, o: SetOptions, d: Option<int>): Outcome {
    var present := key in st;
    var performed := (o.nx ==> !present) && (o.xx ==> present);
    var deadline := if o.keep && present then st[key].deadline else d;
    Outcome(
      if performed then st[key := Slot(value, deadline)] else st,
      if o.get then (if present then Done else Null) else (if performed then Done else Null))
  }

  function ExecSet(st: Store, args: Args, now: int): Outcome {
    if |args| < 3 then Outcome(st, Error)
    else
      match ParseSet(args[3..], NO_OPTIONS)
      case None => Outcome(st, Error)
      case Some(o) =>
        if o.unit.None? then DoSet(st, args[1], args[2], o, None)
        else
          match OptionsDeadline(o, now)
          case None => Outcome(st, Error)
          case Some(d) => DoSet(st, args[1], args[2], o, Some(d))
  }

  function ExecSetEx(st: Store, args: Args, unit: Opt, now: int): Outcome {
    if |args| != 4 then Outcome(st, Error)
    else
      match RedisInt(args[2])
      case None => Outcome(st, Error)
      case Some(n) =>
        match SetDeadline(unit, n, now)
        case None => Outcome(st, Error)
        case Some(d) => Outcome(st[args[1] := Slot(args[3], Some(d))], Done)
  }

  // ---- the EXPIRE family ----

  datatype ExpireOptions = ExpireOptions(nx: bool, xx: bool, gt: bool, lt: bool)

  const NO_CONDITIONS := ExpireOptions(false, false, false, false)

  function ParseExpire(opts: Args, o: ExpireOptions): Option<ExpireOptions>
    decreases |opts|
  {
    if opts == [] then
      if (o.nx && (o.xx || o.gt || o.lt)) || (o.gt && o.lt) then None else Some(o)
    else
      match OptionOf(opts[0])
      case Nx => ParseExpire(opts[1..], o.(nx := true))
      case Xx => ParseExpire(opts[1..], o.(xx := true))
      case Gt => ParseExpire(opts[1..], o.(gt := true))
      case Lt => ParseExpire(opts[1..], o.(lt := true))
      case _ => None
  }

  /** Redis allows negative amounts here; only overflow is an error. */
  function ExpireDeadline(unit: Opt, n: int, now: int): Option<int> {
    var ms := Millis(unit, n);
    var d := if IsRelative(unit) then ms + now else ms;
    if IsInt64(ms) && IsInt64(d) then Some(d) else None
  }

  /** Whether the options let a deadline replace the current one. No deadline counts as infinitely late. */
  predicate Admits(o: ExpireOptions, current: Option<int>, d: int) {
    && (o.nx ==> current.None?)
    && (o.xx ==> current.Some?)
    && (o.gt ==> current.Some? && current.value < d)
    && (o.lt ==> current.None? || d < current.value)
  }

  function DoExpire(st: Store, key: Bytes, o: ExpireOptions, d: int): Outcome {
    if key in st && Admits(o, st[key].deadline, d)
    then Outcome(st[key := st[key].(deadline := Some(d))], Done)
    else Outcome(st, Done)
  }

  function ExecExpire(st: Store, args: Args, unit: Opt, now: int): Outcome {
    if |args| < 3 then Outcome(st, Error)
    else
      match ParseExpire(args[3..], NO_CONDITIONS)
      case None => Outcome(st, Error)
      case Some(o) =>
        match RedisInt(args[2])
        case None => Outcome(st, Error)
        case Some(n) =>
          match ExpireDeadline(unit, n, now)
          case None => Outcome(st, Error)
          case Some(d) => DoExpire(st, args[1], o, d)
  }

  // ---- the rest ----

  function ExecPersist(st: Store, args: Args): Outcome {
    if |args| != 2 then Outcome(st, Error)
    else if args[1] in st then Outcome(st[args[1] := st[args[1]].(deadline := None)], Done)
    else Outcome(st, Done)
  }

  function ExecDel(st: Store, args: Args): Outcome {
    if |args| < 2 then Outcome(st, Error)
    else Outcome(map k | k in st && k !in args[1..] :: st[k], Done)
  }

  function ExecAppend(st: Store, args: Args): Outcome {
    if |args| != 3 then Outcome(st, Error)
    else if args[1] in st then Outcome(st[args[1] := st[args[1]].(value := st[args[1]].value + args[2])], Done)
    else Outcome(st[args[1] := Slot(args[2], None)], Done)
  }

  /** Backend.Do at clock `now`. */
  function Exec(x: Others, st: Store, args: Args, now: int): Outcome {
    if args == [] then Outcome(st, Error)
    else
      match NameOf(args[0])
      case Set => ExecSet(st, args, now)
      case SetEx => ExecSetEx(st, args, Ex, now)
      case PSetEx => ExecSetEx(st, args, Px, now)
      case Expire => ExecExpire(st, args, Ex, now)
      case PExpire => ExecExpire(st, args, Px, now)
      case ExpireAt => ExecExpire(st, args, ExAt, now)
      case PExpireAt => ExecExpire(st, args, PxAt, now)
      case Persist => ExecPersist(st, args)
      case Del => ExecDel(st, args)
      case Append => ExecAppend(st, args)
      case Other => x(st, args)
  }

  /** Something that executes a command on a store at a clock value. */
  type Backend = (Store, Args, int) -> Outcome

  function Redis(x: Others): Backend {
    (st: Store, args: Args, now: int) => Exec(x, st, args, now)
  }

  /** The backend as it is from `t0` on: earlier clocks read as `t0`. */
  function Since(run: Backend, t0: int): Backend {
    (st: Store, args: Args, now: int) => run(st, args, Max(now, t0))
  }

  /** Executing commands in order. */
  function ExecAll(run: Backend, st: Store, cmds: seq<Args>, now: int): Store
    decreases |cmds|
  {
    if cmds == [] then st else ExecAll(run, run(st, cmds[0], now).store, cmds[1..], now)
  }

  /** Executing this command gives the same result at every clock value. */
  ghost predicate ClockFree(run: Backend, args: Args) {
    forall st, t, u :: run(st, args, t) == run(st, args, u)
  }
}
