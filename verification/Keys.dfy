/** Index keys and the order the engine compares them by. */
module Keys {

  // What a value is compared by: the number of an INT, a DATETIME or a DECIMAL, or the text of a VARCHAR.
  datatype Key = Num(n: int) | Str(s: string)

  predicate Less(a: Key, b: Key) {
    match (a, b)
    case (Num(x), Num(y)) => x < y
    case (Num(_), Str(_)) => true
    case (Str(_), Num(_)) => false
    case (Str(x), Str(y)) => StrLess(x, y)
  }

  predicate StrLess(x: string, y: string) {
    if y == "" then false
    else if x == "" then true
    else if x[0] != y[0] then x[0] < y[0]
    else StrLess(x[1..], y[1..])
  }

  lemma {:induction false} StrLessIrreflexive(x: string)
    ensures !StrLess(x, x)
  {
    if x != "" { StrLessIrreflexive(x[1..]); }
  }

  lemma {:induction false} StrLessTransitive(x: string, y: string, z: string)
    requires StrLess(x, y) && StrLess(y, z)
    ensures StrLess(x, z)
  {
    if x != "" && x[0] == y[0] && y[0] == z[0] { StrLessTransitive(x[1..], y[1..], z[1..]); }
  }

  lemma {:induction false} StrLessTotal(x: string, y: string)
    ensures x == y || StrLess(x, y) || StrLess(y, x)
  {
    if x != "" && y != "" && x[0] == y[0] {
      StrLessTotal(x[1..], y[1..]);
      assert x == [x[0]] + x[1..] && y == [y[0]] + y[1..];
    }
  }

  // Less is a strict total order; these three facts are all that the index relies on.

  lemma LessIrreflexive(a: Key)
    ensures !Less(a, a)
  {
    if a.Str? { StrLessIrreflexive(a.s); }
  }

  lemma LessTransitive(a: Key, b: Key, c: Key)
    requires Less(a, b) && Less(b, c)
    ensures Less(a, c)
  {
    if a.Str? && b.Str? && c.Str? { StrLessTransitive(a.s, b.s, c.s); }
  }

  lemma LessTotal(a: Key, b: Key)
    ensures a == b || Less(a, b) || Less(b, a)
  {
    if a.Str? && b.Str? { StrLessTotal(a.s, b.s); }
  }

  lemma LessAsymmetric(a: Key, b: Key)
    requires Less(a, b)
    ensures !Less(b, a)
  {
    hide Less;
    if Less(b, a) { LessTransitive(a, b, a); LessIrreflexive(a); }
  }

  // a <= b < c and a < b <= c
  lemma LessMixed(a: Key, b: Key, c: Key)
    requires (!Less(b, a) && Less(b, c)) || (Less(a, b) && !Less(c, b))
    ensures Less(a, c)
  {
    hide Less;
    LessTotal(a, b);
    LessTotal(b, c);
    if Less(a, b) && Less(b, c) { LessTransitive(a, b, c); }
  }

  lemma NotLessTransitive(a: Key, b: Key, c: Key)
    requires !Less(b, a) && !Less(c, b)
    ensures !Less(c, a)
  {
    hide Less;
    if Less(c, a) { LessMixed(c, a, b); }
  }

  // The comparison operators of WHERE and JOIN, as Value's operators define them from < and ==.
  datatype CmpOp = EQ | NE | LT | GT | LE | GE

  predicate Satisfies(op: CmpOp, a: Key, b: Key) {
    match op
    case EQ => a == b
    case NE => a != b
    case LT => Less(a, b)
    case GT => Less(b, a)
    case LE => !Less(b, a)
    case GE => !Less(a, b)
  }
}
