/** Results of operations that can fail. */
module Results {
  datatype Option<+T> = None | Some(value: T)

  datatype Result<+T> = Ok(value: T) | Error {
    predicate IsFailure() {
      Error?
    }

    function PropagateFailure<U>(): Result<U>
      requires IsFailure()
    {
      Error
    }

    function Extract(): T
      requires !IsFailure()
    {
      value
    }
  }
}

/** The expressions of the specification language that are simplified and lowered. */
module Expressions {
  import opened Results
  import opened Types

  /** The associative operators.  In the source language `AndThen` is a subclass of `And`, and `OrElse` of `Or`. */
  datatype AssOp = And | AndThen | Or | OrElse | Add | Mul {
    predicate IsBool() {
      this != Add && this != Mul
    }

    predicate IsAnd() {
      this == And || this == AndThen
    }

    predicate IsOr() {
      this == Or || this == OrElse
    }

    /** An operation of class `other` is also an instance of the class of `this`. */
    predicate HasInstance(other: AssOp) {
      this == other || (this == And && other == AndThen) || (this == Or && other == OrElse)
    }
  }

  datatype BinOp = Sub | Div | Pow | Mod

  datatype RelOp = Less | LessEqual | Equal | GreaterEqual | Greater | NotEqual {
    function Inverse(): RelOp {
      match this
      case Less => GreaterEqual
      case LessEqual => Greater
      case Equal => NotEqual
      case GreaterEqual => Less
      case Greater => LessEqual
      case NotEqual => Equal
    }

    predicate IsOrdering() {
      this != Equal && this != NotEqual
    }
  }

  /** The identifiers of literals: the two of the built-in boolean type, and those of declared enumerations. */
  datatype Lit = FalseLit | TrueLit | EnumLit(name: string, enum: Ty) {
    function Name(): string {
      match this
      case FalseLit => "False"
      case TrueLit => "True"
      case EnumLit(name, _) => name
    }
  }

  datatype Expr =
    | Number(n: int)
    | Literal(lit: Lit)
    | Variable(id: string, typ: Ty)
    | Selected(message: string, field: string, typ: Ty)
    | Not(expr: Expr)
    | Neg(expr: Expr)
    | Ass(ass: AssOp, terms: seq<Expr>)
    | Bin(bin: BinOp, left: Expr, right: Expr)
    | Rel(rel: RelOp, left: Expr, right: Expr)
    | If(cond: Expr, thn: Expr, rest: Else)

  /** What follows the first condition and its expression: nothing, an else part, or an elsif part. */
  datatype Else = NoElse | ElsePart(els: Expr) | Elsif(cond: Expr, thn: Expr, rest: Else) {
    function Final(): Else {
      if Elsif? then rest.Final() else this
    }
  }

  const TRUE := Literal(TrueLit)
  const FALSE := Literal(FalseLit)

  function BoolLit(b: bool): Expr {
    if b then TRUE else FALSE
  }

  /** The places an expression reads: variables, message fields and the validity of message fields. */
  datatype Loc = Var(id: string) | Field(message: string, field: string) | Valid(message: string, field: string)

  datatype Value = Int(i: int) | Bool(b: bool) | Enum(name: string, enum: Ty)

  type Env = map<Loc, Value>

  function Lookup(env: Env, loc: Loc): Option<Value> {
    if loc in env then Some(env[loc]) else None
  }

  /** A field may only be read while it is valid. */
  function ReadField(env: Env, message: string, field: string): Option<Value> {
    if Lookup(env, Valid(message, field)) == Some(Bool(true)) then Lookup(env, Field(message, field)) else None
  }

  function LiteralValue(lit: Lit): Value {
    match lit
    case FalseLit => Bool(false)
    case TrueLit => Bool(true)
    case EnumLit(name, enum) => Enum(name, enum)
  }

  function Compare(rel: RelOp, a: int, b: int): bool {
    match rel
    case Less => a < b
    case LessEqual => a <= b
    case Equal => a == b
    case GreaterEqual => a >= b
    case Greater => a > b
    case NotEqual => a != b
  }

  /** Integer division rounds toward zero. */
  function TruncDiv(a: int, b: int): int
    requires b != 0
  {
    var q := (if a < 0 then -a else a) / (if b < 0 then -b else b);
    if (a < 0) == (b < 0) then q else -q
  }

  /** The result of `mod` has the sign of the divisor. */
  function FloorMod(a: int, b: int): (r: int)
    requires b != 0
    ensures b > 0 ==> 0 <= r < b
    ensures b < 0 ==> b < r <= 0
  {
    if b > 0 then a % b else -((-a) % (-b))
  }

  function Power(b: int, e: nat): int {
    if e == 0 then 1 else b * Power(b, e - 1)
  }
}
