/** BasicTextCursor<int32_t>: a position in a text buffer that wraps a
    32-bit signed index and offers the integer operators on it. The
    operands are signed integers whose exact result the operator keeps:
    every constructor and operator that could leave the 32-bit range
    requires that it does not. */
module TextCursor {
  import opened Strings

  newtype int32 = x: int | -0x8000_0000 <= x < 0x8000_0000

  /** Division as C++ does it on integers: the quotient is truncated
      toward zero (Dafny's own `/` is Euclidean). */
  function TruncDiv(a: int, b: int): (q: int)
    requires b != 0
    ensures Abs(q) == Abs(a) / Abs(b)
    ensures q > 0 ==> (a > 0) == (b > 0)
    ensures q < 0 ==> (a > 0) != (b > 0)
  {
    var m := Abs(a) / Abs(b);
    assert a == 0 ==> m == 0;
    if (a < 0) != (b < 0) then -m else m
  }

  function Abs(n: int): nat { if n < 0 then -n else n }

  /** The six comparison operators. */
  datatype Comparison = Eq | Ne | Lt | Le | Gt | Ge

  /** What a comparison operator means on two integers. */
  predicate Holds(op: Comparison, a: int, b: int) {
    match op
    case Eq => a == b
    case Ne => a != b
    case Lt => a < b
    case Le => a <= b
    case Gt => a > b
    case Ge => a >= b
  }

  /** The operator that gives the same answer with its operands swapped. */
  function Swapped(op: Comparison): (r: Comparison)
    ensures forall a: int, b: int :: Holds(r, b, a) == Holds(op, a, b)
  {
    match op
    case Eq => Eq
    case Ne => Ne
    case Lt => Gt
    case Le => Ge
    case Gt => Lt
    case Ge => Le
  }

  /** The operator whose answer is always the opposite one. */
  function Negated(op: Comparison): (r: Comparison)
    ensures forall a: int, b: int :: Holds(r, a, b) == !Holds(op, a, b)
  {
    match op
    case Eq => Ne
    case Ne => Eq
    case Lt => Ge
    case Le => Gt
    case Gt => Le
    case Ge => Lt
  }

  class BasicTextCursor {
    var index: int32

    /** The defaulted constructor: the member initialiser gives index 0. */
    constructor ()
      ensures index == 0
    {
      index := 0;
    }

    /** `explicit BasicTextCursor(Integer index)`. */
    constructor FromInteger(i: int)
      requires IsInt32(i)
      ensures index as int == i
    {
      index := i as int32;
    }

    /** The defaulted copy constructor. */
    constructor Copy(other: BasicTextCursor)
      ensures index == other.index
    {
      index := other.index;
    }

    /** `to_integer(cursor)`: the wrapped index. */
    function ToInteger(): (n: int)
      reads this
      ensures IsInt32(n)
    {
      index as int
    }

    /** Prefix `++c`: moves on by one and yields the cursor itself. */
    method PreIncrement() returns (self: BasicTextCursor)
      requires index as int < INT32_MAX
      modifies this
      ensures index as int == old(index) as int + 1
      ensures self == this
    {
      index := index + 1;
      self := this;
    }

    /** Prefix `--c`: moves back by one and yields the cursor itself. */
    method PreDecrement() returns (self: BasicTextCursor)
      requires index as int > INT32_MIN
      modifies this
      ensures index as int == old(index) as int - 1
      ensures self == this
    {
      index := index - 1;
      self := this;
    }

    /** Postfix `c++`: moves on by one and yields a copy of the old cursor. */
    method PostIncrement() returns (tmp: BasicTextCursor)
      requires index as int < INT32_MAX
      modifies this
      ensures fresh(tmp) && tmp.index == old(index)
      ensures index as int == old(index) as int + 1
    {
      tmp := new BasicTextCursor.Copy(this);
      index := index + 1;
    }

    /** Postfix `c--`: moves back by one and yields a copy of the old cursor. */
    method PostDecrement() returns (tmp: BasicTextCursor)
      requires index as int > INT32_MIN
      modifies this
      ensures fresh(tmp) && tmp.index == old(index)
      ensures index as int == old(index) as int - 1
    {
      tmp := new BasicTextCursor.Copy(this);
      index := index - 1;
    }

    /** `c += n`. */
    method AddAssign(n: int) returns (self: BasicTextCursor)
      requires IsInt32(index as int + n)
      modifies this
      ensures index as int == old(index) as int + n
      ensures self == this
    {
      index := (index as int + n) as int32;
      self := this;
    }

    /** `c -= n`. */
    method SubAssign(n: int) returns (self: BasicTextCursor)
      requires IsInt32(index as int - n)
      modifies this
      ensures index as int == old(index) as int - n
      ensures self == this
    {
      index := (index as int - n) as int32;
      self := this;
    }

    /** `c *= n`. */
    method MulAssign(n: int) returns (self: BasicTextCursor)
      requires IsInt32(index as int * n)
      modifies this
      ensures index as int == old(index) as int * n
      ensures self == this
    {
      index := (index as int * n) as int32;
      self := this;
    }

    /** `c /= n`: C++ division, truncating toward zero. */
    method DivAssign(n: int) returns (self: BasicTextCursor)
      requires n != 0 && IsInt32(TruncDiv(index as int, n))
      modifies this
      ensures index as int == TruncDiv(old(index) as int, n)
      ensures self == this
    {
      index := TruncDiv(index as int, n) as int32;
      self := this;
    }

    /** `c - d` for two cursors: the signed distance between them. */
    function Distance(rhs: BasicTextCursor): (d: int)
      reads this, rhs
      requires IsInt32(index as int - rhs.index as int)
      ensures rhs.index as int + d == index as int
    {
      index as int - rhs.index as int
    }

    /** The six cursor/cursor comparison operators: each is decided by
        the sign of the distance between the two cursors, and agrees with
        comparing the cursor to the other's index. */
    predicate Compare(op: Comparison, rhs: BasicTextCursor): (r: bool)
      reads this, rhs
      ensures r == Holds(op, index as int - rhs.index as int, 0)
      ensures r == CompareInteger(op, rhs.index as int)
    {
      Holds(op, index as int, rhs.index as int)
    }

    /** The six cursor/integer comparison operators (signed operands). */
    predicate CompareInteger(op: Comparison, rhs: int): (r: bool)
      reads this
      ensures r == Holds(op, index as int - rhs, 0)
    {
      Holds(op, index as int, rhs)
    }

    /** Binary `c + n`: a copy moved on by `n`; `c` itself is unchanged. */
    method Plus(n: int) returns (tmp: BasicTextCursor)
      requires IsInt32(index as int + n)
      ensures fresh(tmp) && tmp.index as int == index as int + n
    {
      tmp := new BasicTextCursor.Copy(this);
      var _ := tmp.AddAssign(n);
    }

    /** Binary `c - n`: a copy moved back by `n`. */
    method Minus(n: int) returns (tmp: BasicTextCursor)
      requires IsInt32(index as int - n)
      ensures fresh(tmp) && tmp.index as int == index as int - n
    {
      tmp := new BasicTextCursor.Copy(this);
      var _ := tmp.SubAssign(n);
    }

    /** Binary `c * n`. */
    method Times(n: int) returns (tmp: BasicTextCursor)
      requires IsInt32(index as int * n)
      ensures fresh(tmp) && tmp.index as int == index as int * n
    {
      tmp := new BasicTextCursor.Copy(this);
      var _ := tmp.MulAssign(n);
    }

    /** Binary `c / n`, truncating toward zero. */
    method Over(n: int) returns (tmp: BasicTextCursor)
      requires n != 0 && IsInt32(TruncDiv(index as int, n))
      ensures fresh(tmp) && tmp.index as int == TruncDiv(index as int, n)
    {
      tmp := new BasicTextCursor.Copy(this);
      var _ := tmp.DivAssign(n);
    }
  }

  /** The friend comparisons `n op c` with the integer on the left: the
      member comparison with the operands swapped. */
  predicate IntegerCompare(op: Comparison, lhs: int, rhs: BasicTextCursor): (r: bool)
    reads rhs
    ensures r == rhs.CompareInteger(Swapped(op), lhs)
  {
    Holds(op, lhs, rhs.index as int)
  }

  /** The friend `n + c`: a copy of `c` moved on by `n`. */
  method IntegerPlus(lhs: int, rhs: BasicTextCursor) returns (tmp: BasicTextCursor)
    requires IsInt32(rhs.index as int + lhs)
    ensures fresh(tmp) && tmp.index as int == rhs.index as int + lhs
  {
    tmp := new BasicTextCursor.Copy(rhs);
    var _ := tmp.AddAssign(lhs);
  }

  // -----------------------------------------------------------------------
  // What the operators promise together
  // -----------------------------------------------------------------------

  /** A cursor built from an integer gives that integer back, and a
      default cursor sits at zero. */
  method ConstructionRoundTrip(i: int) returns (fromInt: int, fromDefault: int)
    requires IsInt32(i)
    ensures fromInt == i && fromDefault == 0
  {
    var c := new BasicTextCursor.FromInteger(i);
    fromInt := c.ToInteger();
    var d := new BasicTextCursor();
    fromDefault := d.ToInteger();
  }

  /** `c += n` followed by `c -= n` leaves `c` where it was. */
  method AddThenSubtract(c: BasicTextCursor, n: int)
    requires IsInt32(c.index as int + n)
    modifies c
    ensures c.index == old(c.index)
  {
    var _ := c.AddAssign(n);
    var _ := c.SubAssign(n);
  }

  /** `(c + n) - c == n`, and `c - n` lands where `c += -n` does. */
  method PlusDistance(c: BasicTextCursor, n: int) returns (d: int, viaMinus: int, viaAdd: int)
    requires IsInt32(c.index as int + n) && IsInt32(c.index as int - n)
    ensures d == n && viaMinus == viaAdd
  {
    var moved := c.Plus(n);
    d := moved.Distance(c);
    var back := c.Minus(n);
    viaMinus := back.ToInteger();
    var other := new BasicTextCursor.Copy(c);
    var _ := other.AddAssign(-n);
    viaAdd := other.ToInteger();
  }

  /** `n + c == c + n`. */
  method PlusCommutes(c: BasicTextCursor, n: int) returns (left: int, right: int)
    requires IsInt32(c.index as int + n)
    ensures left == right == c.index as int + n
  {
    var l := IntegerPlus(n, c);
    var r := c.Plus(n);
    left, right := l.ToInteger(), r.ToInteger();
  }

  /** Exactly one of `<`, `==`, `>` holds between two cursors. */
  lemma Trichotomy(c: BasicTextCursor, d: BasicTextCursor)
    ensures c.Compare(Lt, d) || c.Compare(Eq, d) || c.Compare(Gt, d)
    ensures !(c.Compare(Lt, d) && c.Compare(Gt, d))
    ensures c.Compare(Le, d) == (c.Compare(Lt, d) || c.Compare(Eq, d))
  {
  }
}
