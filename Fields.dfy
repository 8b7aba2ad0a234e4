/** The field value of a tuple: a closed variant over int, double and string,
    ordered the way std::variant orders its alternatives. */
module Fields {
  import opened Common

  /** A double payload is an exact rational here. */
  datatype Field = IntField(i: int) | DoubleField(d: real) | StringField(s: string)

  /** The zero-based index of the alternative a field holds. */
  function Alternative(f: Field): nat
  {
    match f
    case IntField(_) => 0
    case DoubleField(_) => 1
    case StringField(_) => 2
  }

  /** The value of a default-constructed field_t: the first alternative, zero. */
  const DefaultField: Field := IntField(0)

  /** Lexicographic < on strings, character by character. */
  predicate StringLess(a: string, b: string)
  {
    if |b| == 0 then false
    else if |a| == 0 then true
    else if a[0] != b[0] then a[0] < b[0]
    else StringLess(a[1..], b[1..])
  }

  /** Lexicographic <= on strings, character by character. */
  predicate StringLessEq(a: string, b: string)
  {
    if |a| == 0 then true
    else if |b| == 0 then false
    else if a[0] != b[0] then a[0] < b[0]
    else StringLessEq(a[1..], b[1..])
  }

  /** field_t < field_t: the alternative index first, then the payload. */
  predicate Less(a: Field, b: Field)
  {
    if Alternative(a) != Alternative(b) then Alternative(a) < Alternative(b)
    else match (a, b)
      case (IntField(x), IntField(y)) => x < y
      case (DoubleField(x), DoubleField(y)) => x < y
      case (StringField(x), StringField(y)) => StringLess(x, y)
      case _ => false
  }

  /** field_t <= field_t: the alternative index first, then the payload. */
  predicate LessEq(a: Field, b: Field)
  {
    if Alternative(a) != Alternative(b) then Alternative(a) < Alternative(b)
    else match (a, b)
      case (IntField(x), IntField(y)) => x <= y
      case (DoubleField(x), DoubleField(y)) => x <= y
      case (StringField(x), StringField(y)) => StringLessEq(x, y)
      case _ => false
  }

  /** to_double: the numeric alternatives convert, a string has no numeric value. */
  function ToDouble(f: Field): (r: Option<real>)
    ensures r.Some? <==> !f.StringField?
  {
    match f
    case IntField(x) => Some(x as real)
    case DoubleField(x) => Some(x)
    case StringField(_) => None
  }

  // ---- Strings ----

  lemma {:induction false} StringLessEqIsLessOrEqual(a: string, b: string)
    ensures StringLessEq(a, b) <==> StringLess(a, b) || a == b
  {
    if |a| > 0 && |b| > 0 && a[0] == b[0] {
      StringLessEqIsLessOrEqual(a[1..], b[1..]);
      assert a == [a[0]] + a[1..] && b == [b[0]] + b[1..];
    }
  }

  lemma {:induction false} StringTrichotomy(a: string, b: string)
    ensures StringLess(a, b) || a == b || StringLess(b, a)
    ensures !(StringLess(a, b) && StringLess(b, a))
    ensures !StringLess(a, a)
  {
    if |a| > 0 && |b| > 0 && a[0] == b[0] {
      StringTrichotomy(a[1..], b[1..]);
      assert a == [a[0]] + a[1..] && b == [b[0]] + b[1..];
    }
    if |a| > 0 {
      StringTrichotomy(a[1..], a[1..]);
    }
  }

  lemma {:induction false} StringLessTransitive(a: string, b: string, c: string)
    requires StringLess(a, b) && StringLess(b, c)
    ensures StringLess(a, c)
  {
    if |a| > 0 && a[0] == b[0] && b[0] == c[0] {
      StringLessTransitive(a[1..], b[1..], c[1..]);
    }
  }

  // ---- Fields ----

  /** <= on field values is < or ==. */
  lemma LessEqIsLessOrEqual(a: Field, b: Field)
    ensures LessEq(a, b) <==> Less(a, b) || a == b
  {
    if a.StringField? && b.StringField? {
      StringLessEqIsLessOrEqual(a.s, b.s);
    }
  }

  /** < on field values is a strict total order. */
  lemma Trichotomy(a: Field, b: Field)
    ensures Less(a, b) || a == b || Less(b, a)
    ensures !(Less(a, b) && Less(b, a))
    ensures !Less(a, a)
  {
    if a.StringField? && b.StringField? {
      StringTrichotomy(a.s, b.s);
    }
    if a.StringField? {
      StringTrichotomy(a.s, a.s);
    }
  }

  lemma LessTransitive(a: Field, b: Field, c: Field)
    requires Less(a, b) && Less(b, c)
    ensures Less(a, c)
  {
    if a.StringField? && b.StringField? && c.StringField? {
      StringLessTransitive(a.s, b.s, c.s);
    }
  }
}
