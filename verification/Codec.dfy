/** Values and strings as bytes. */
module Codec {
  import opened Bytes
  import opened Values

  // ---- Text ----

  function TextBytes(s: string): (b: seq<bv8>)
    requires Narrow(s)
    ensures |b| == |s|
  {
    seq(|s|, i requires 0 <= i < |s| => (s[i] as int) as bv8)
  }

  function BytesText(b: seq<bv8>): (s: string)
    ensures |s| == |b| && Narrow(s)
  {
    seq(|b|, i requires 0 <= i < |b| => CharOf(b[i]))
  }

  function CharOf(b: bv8): (c: char)
    ensures c as int < 256
  {
    ByteBack(b);
    (b as int) as char
  }

  lemma TextRoundTrip(s: string)
    requires Narrow(s)
    ensures BytesText(TextBytes(s)) == s
  {
    var b := TextBytes(s);
    forall i | 0 <= i < |s| ensures BytesText(b)[i] == s[i] { ByteRoundTrip(s[i] as int); }
  }

  // ---- Two's complement ----

  function Unsigned(i: int, k: nat): nat
    requires i + Pow256(k) >= 0
  {
    if i < 0 then i + Pow256(k) else i
  }

  function Signed(n: nat, k: nat): int {
    if 2 * n >= Pow256(k) then n - Pow256(k) else n
  }

  lemma SignedRoundTrip(i: int, k: nat)
    requires 2 * i + Pow256(k) >= 0 && 2 * i < Pow256(k)
    ensures Unsigned(i, k) < Pow256(k) && Signed(Unsigned(i, k), k) == i
  {
  }

  // ---- Fixed-width values ----

  function Width(kind: DataType): nat
    requires kind != VARCHAR
  {
    if kind == INT then 4 else 8
  }

  function FixedBytes(v: Value): (b: seq<bv8>)
    requires Bounded(v) && !v.Varchar?
    ensures |b| == Width(TypeOf(v))
  {
    Widths();
    match v
    case Int(i) => Le(Unsigned(i, 4), 4)
    case Decimal(bits) => Le(bits, 8)
    case Datetime(t) => Le(Unsigned(t, 8), 8)
  }

  function FixedValue(kind: DataType, b: seq<bv8>): Value
    requires kind != VARCHAR
  {
    if kind == INT then Int(Signed(FromLe(b), 4))
    else if kind == DECIMAL then Decimal(FromLe(b))
    else Datetime(Signed(FromLe(b), 8))
  }

  lemma FixedRoundTrip(v: Value)
    requires Bounded(v) && !v.Varchar?
    ensures FixedValue(TypeOf(v), FixedBytes(v)) == v
  {
    hide Le, FromLe, Pow256;
    Widths();
    match v
    case Int(i) => SignedRoundTrip(i, 4); LeRoundTrip(Unsigned(i, 4), 4);
    case Decimal(bits) => LeRoundTrip(bits, 8);
    case Datetime(t) => SignedRoundTrip(t, 8); LeRoundTrip(Unsigned(t, 8), 8);
  }

  function Code(kind: DataType): nat {
    match kind
    case INT => 0
    case DECIMAL => 1
    case VARCHAR => 2
    case DATETIME => 3
  }

  function KindOf(code: nat): Option<DataType> {
    match code
    case 0 => Some(INT)
    case 1 => Some(DECIMAL)
    case 2 => Some(VARCHAR)
    case 3 => Some(DATETIME)
    case _ => None
  }
}
