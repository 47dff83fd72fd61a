/** Document values the driver works on: decoded JSON, and the caller's entities
    that the driver places into a record array before writing it back. */
module Documents {

  /** A decoded JSON value (the Go `interface{}` produced by decoding a file), or
      `Ent`: a caller's entity value stored as it is, which is not a map. */
  datatype Doc =
    | Null
    | Bool(b: bool)
    | Num(n: int)
    | Str(s: string)
    | Arr(items: seq<Doc>)
    | Obj(fields: map<string, Doc>)
    | Ent(entity: Entity)

  /** A caller-defined record: the type identity that names its backing file,
      its identifier value, and its other serialized fields. */
  datatype Entity = Entity(identity: string, identifier: Doc, fields: map<string, Doc>)

  /** The well-known key under which every entity type stores its identifier. */
  const IdentifierKey: string := "ID"

  /** The JSON object an entity serializes to: its fields, with its identifier
      under the identifier key. */
  function Serialize(e: Entity): (r: Doc)
    ensures r.Obj? && IdentifierKey in r.fields && r.fields[IdentifierKey] == e.identifier
    ensures forall k :: k in e.fields && k != IdentifierKey ==> k in r.fields && r.fields[k] == e.fields[k]
  {
    Obj(e.fields[IdentifierKey := e.identifier])
  }

  /** What one element of a record array becomes once written to a file and read back. */
  function Encode(d: Doc): (r: Doc)
    ensures !r.Ent?
    ensures !d.Ent? ==> r == d
  {
    if d.Ent? then Serialize(d.entity) else d
  }

  /** A record array as written to a file: every entity value serialized. */
  function EncodeAll(rs: seq<Doc>): (r: seq<Doc>)
    ensures |r| == |rs|
    ensures forall i :: 0 <= i < |rs| ==> r[i] == Encode(rs[i])
  {
    seq(|rs|, i requires 0 <= i < |rs| => Encode(rs[i]))
  }

  /** No element of the array is an entity value: the array came from a file. */
  predicate Decoded(rs: seq<Doc>) {
    forall i :: 0 <= i < |rs| ==> !rs[i].Ent?
  }

  lemma EncodeAllDecoded(rs: seq<Doc>)
    requires Decoded(rs)
    ensures EncodeAll(rs) == rs
  {
  }

  /** The value handed to the JSON conversion of a snapshot: entity values are
      serialized, at the top level and inside a record array. */
  function Marshal(d: Doc): (r: Doc)
    ensures d.Arr? ==> r.Arr? && Decoded(r.items) && |r.items| == |d.items|
    ensures !d.Arr? ==> !r.Ent?
  {
    match d
    case Ent(e) => Serialize(e)
    case Arr(items) => Arr(EncodeAll(items))
    case _ => d
  }

  /** The array held by a snapshot, or nothing when it is not an array. */
  function ArrayView(d: Doc): (r: seq<Doc>)
    ensures d.Arr? ==> r == d.items
    ensures !d.Arr? ==> r == []
  {
    if d.Arr? then d.items else []
  }

  function Digit(n: nat): char
    requires n < 10
  {
    "0123456789"[n]
  }

  function NatToString(n: nat): (r: string)
    ensures |r| > 0
    ensures forall i :: 0 <= i < |r| ==> '0' <= r[i] <= '9'
  {
    if n < 10 then [Digit(n)] else NatToString(n / 10) + [Digit(n % 10)]
  }

  /** The text Go's `%v` verb produces for a scalar value. Composite values are
      rendered by a fixed marker per kind. */
  function Format(d: Doc): string {
    match d
    case Null => "<nil>"
    case Bool(b) => if b then "true" else "false"
    case Num(n) => if n < 0 then "-" + NatToString(-n) else NatToString(n)
    case Str(s) => s
    case Arr(_) => "[...]"
    case Obj(_) => "map[...]"
    case Ent(_) => "{...}"
  }

  lemma DigitInjective(m: nat, n: nat)
    requires m < 10 && n < 10 && Digit(m) == Digit(n)
    ensures m == n
  {
  }

  /** A number's text is a single digit exactly when the number is below 10. */
  lemma NatToStringSingle(n: nat)
    ensures |NatToString(n)| == 1 <==> n < 10
  {
    if n >= 10 {
      assert |NatToString(n)| == |NatToString(n / 10)| + 1;
    }
  }

  lemma {:induction false} NatToStringInjective(a: nat, b: nat)
    requires NatToString(a) == NatToString(b)
    ensures a == b
  {
    var sa, sb := NatToString(a), NatToString(b);
    NatToStringSingle(a);
    NatToStringSingle(b);
    if a < 10 && b < 10 {
      DigitInjective(a, b);
    } else if a >= 10 && b >= 10 {
      assert sa[|sa| - 1] == Digit(a % 10) && sb[|sb| - 1] == Digit(b % 10);
      DigitInjective(a % 10, b % 10);
      assert sa[..|sa| - 1] == NatToString(a / 10) && sb[..|sb| - 1] == NatToString(b / 10);
      NatToStringInjective(a / 10, b / 10);
    }
  }

  /** Two integers that print alike are equal. */
  lemma FormatNumInjective(a: int, b: int)
    requires Format(Num(a)) == Format(Num(b))
    ensures a == b
  {
    FormatSign(a);
    FormatSign(b);
    if a < 0 && b < 0 {
      MinusInjective(NatToString(-a), NatToString(-b));
      NatToStringInjective(-a, -b);
    } else if a >= 0 && b >= 0 {
      NatToStringInjective(a, b);
    }
  }

  /** Two integers print alike exactly when they are equal, so Update's
      formatted comparison of integer identifiers is plain equality. */
  lemma FormatNumEqual(a: int, b: int)
    ensures Format(Num(a)) == Format(Num(b)) <==> a == b
  {
    if Format(Num(a)) == Format(Num(b)) {
      FormatNumInjective(a, b);
    }
  }

  lemma MinusInjective(x: string, y: string)
    requires "-" + x == "-" + y
    ensures x == y
  {
    assert x == ("-" + x)[1..];
  }

  /** An integer's text starts with a minus sign exactly when it is negative. */
  lemma FormatSign(n: int)
    ensures |Format(Num(n))| > 0
    ensures Format(Num(n))[0] == '-' <==> n < 0
  {
    if n >= 0 {
      assert '0' <= NatToString(n)[0] <= '9';
    }
  }

  /** Formatting is not injective: a string and a number can print alike. */
  lemma FormatConflates()
    ensures Str("1") != Num(1) && Format(Str("1")) == Format(Num(1))
  {
  }
}
