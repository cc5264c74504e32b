/**
 * One AutoValue property as the extension reads it: its accessor, wire name, declared type,
 * annotations and JSON qualifiers.
 */
module Properties {
  import opened Wrappers
  import opened Seqs
  import opened JavaTypes
  import opened Diagnostics

  datatype Property = Property(
    humanName: string,              // AutoValue's property name (the key of the properties map)
    methodName: string,             // the abstract accessor's simple name
    jsonName: Option<string>,       // the value of an @Json(name = ...) annotation, if present
    propType: TypeExpr,             // the accessor's return type
    annotations: seq<string>,       // qualified names of the accessor's annotations, in order
    qualifiers: seq<string>,        // canonical names of the annotations that are @JsonQualifiers
    isTransient: bool)              // annotated @AutoTransient

  /** The JSON member name: the @Json name when present, the property name otherwise. */
  function SerializedName(p: Property): (r: string)
    ensures p.jsonName.Some? ==> r == p.jsonName.value
    ensures p.jsonName.None? ==> r == p.humanName
  {
    match p.jsonName
    case Some(n) => n
    case None => p.humanName
  }

  /** An annotation that marks a property nullable, whatever package it comes from. */
  predicate IsNullableMarker(a: string) {
    a == "@Nullable" || EndsWith(a, ".Nullable")
  }

  /** The first nullable marker among the annotations, if any. */
  function NullableAnnotation(annotations: seq<string>): (r: Option<string>)
    ensures r.None? <==> forall i :: 0 <= i < |annotations| ==> !IsNullableMarker(annotations[i])
    ensures r.Some? ==> exists i :: 0 <= i < |annotations| && annotations[i] == r.value
                          && IsNullableMarker(r.value)
                          && forall j :: 0 <= j < i ==> !IsNullableMarker(annotations[j])
  {
    if |annotations| == 0 then None
    else if IsNullableMarker(annotations[0]) then Some(annotations[0])
    else
      var r := NullableAnnotation(annotations[1..]);
      assert r.Some? ==> exists i :: 1 <= i < |annotations| && annotations[i] == r.value
                          && IsNullableMarker(r.value)
                          && forall j :: 1 <= j < i ==> !IsNullableMarker(annotations[j]);
      r
  }

  predicate Nullable(p: Property) {
    NullableAnnotation(p.annotations).Some?
  }

  /**
   * AutoValue's generated constructor throws NullPointerException when this property's argument
   * is null: a reference-typed property without a nullable annotation.
   */
  predicate NullChecked(p: Property) {
    !Nullable(p) && !p.propType.PrimitiveType?
  }

  predicate HasQualifiers(p: Property) {
    |p.qualifiers| > 0
  }

  /** A property the extension accepts: a transient property must also be nullable. */
  predicate Accepted(p: Property) {
    !p.isTransient || Nullable(p)
  }

  const TransientRequiredMessage: string := "Required property cannot be transient!"

  /**
   * readProperties: the properties the extension keeps, in AutoValue's order, and an error for
   * each required transient property, which is dropped.
   */
  function ReadProperties(ps: seq<Property>): (r: (seq<Property>, seq<Diagnostic>))
    ensures forall p :: p in r.0 <==> p in ps && Accepted(p)
    ensures |r.0| + |r.1| == |ps|
    ensures forall d :: d in r.1 ==> d.Error? && d.message == TransientRequiredMessage
  {
    if |ps| == 0 then ([], [])
    else
      var (kept, diags) := ReadProperties(ps[1..]);
      if Accepted(ps[0]) then ([ps[0]] + kept, diags)
      else (kept, [Error(TransientRequiredMessage, ps[0].humanName)] + diags)
  }

  /**
   * Reading is done property by property: the result for a concatenation is the two results
   * concatenated, so the errors come out in the order of the properties they are printed on.
   */
  lemma {:induction false} ReadPropertiesAppend(a: seq<Property>, b: seq<Property>)
    ensures ReadProperties(a + b).0 == ReadProperties(a).0 + ReadProperties(b).0
    ensures ReadProperties(a + b).1 == ReadProperties(a).1 + ReadProperties(b).1
  {
    if |a| > 0 {
      assert (a + b)[1..] == a[1..] + b;
      ReadPropertiesAppend(a[1..], b);
      ReadPropertiesHead(a + b);
      ReadPropertiesHead(a);
    } else {
      assert a + b == b;
    }
  }

  /** One unfolding of ReadProperties on a non-empty sequence. */
  lemma ReadPropertiesHead(ps: seq<Property>)
    requires |ps| > 0
    ensures Accepted(ps[0]) ==> ReadProperties(ps) == ([ps[0]] + ReadProperties(ps[1..]).0, ReadProperties(ps[1..]).1)
    ensures !Accepted(ps[0]) ==>
              ReadProperties(ps) == (ReadProperties(ps[1..]).0, [Error(TransientRequiredMessage, ps[0].humanName)] + ReadProperties(ps[1..]).1)
  {
  }

  /** One property: kept when accepted, otherwise an error printed on it. */
  lemma ReadPropertiesSingle(p: Property)
    ensures Accepted(p) ==> ReadProperties([p]) == ([p], [])
    ensures !Accepted(p) ==> ReadProperties([p]) == ([], [Error(TransientRequiredMessage, p.humanName)])
  {
    var tail: seq<Property> := [];
    assert [p][1..] == tail;
    assert ReadProperties(tail) == ([], []);
    ReadPropertiesHead([p]);
    assert [p] + [] == [p];
    assert [Error(TransientRequiredMessage, p.humanName)] + [] == [Error(TransientRequiredMessage, p.humanName)];
  }

  /** Keeping only accepted properties preserves their relative order. */
  lemma {:induction false} ReadPropertiesOrder(ps: seq<Property>, i: nat, j: nat)
    requires i < j < |ReadProperties(ps).0|
    ensures exists a, b :: 0 <= a < b < |ps| && ps[a] == ReadProperties(ps).0[i] && ps[b] == ReadProperties(ps).0[j]
  {
    var kept, r := ReadProperties(ps[1..]).0, ReadProperties(ps).0;
    if Accepted(ps[0]) {
      assert r == [ps[0]] + kept;
      if i == 0 {
        assert r[j] == kept[j - 1] && kept[j - 1] in ps[1..];
        var b :| 0 <= b < |ps[1..]| && ps[1..][b] == kept[j - 1];
        assert ps[0] == r[0] && ps[b + 1] == r[j];
      } else {
        ReadPropertiesOrder(ps[1..], i - 1, j - 1);
        OrderInTail(ps, r[i], r[j]);
      }
    } else {
      assert r == kept;
      ReadPropertiesOrder(ps[1..], i, j);
      OrderInTail(ps, r[i], r[j]);
    }
  }

  /** Two elements in order after the head are in order in the whole sequence. */
  lemma OrderInTail(ps: seq<Property>, x: Property, y: Property)
    requires |ps| > 0
    requires exists a, b :: 0 <= a < b < |ps[1..]| && ps[1..][a] == x && ps[1..][b] == y
    ensures exists a, b :: 0 <= a < b < |ps| && ps[a] == x && ps[b] == y
  {
    var a, b :| 0 <= a < b < |ps[1..]| && ps[1..][a] == x && ps[1..][b] == y;
    assert ps[a + 1] == x && ps[b + 1] == y;
  }

  /** Positions `k..` of the non-transient properties, in increasing order. */
  function SlotsFrom(ps: seq<Property>, k: nat): (r: seq<nat>)
    requires k <= |ps|
    ensures forall i :: 0 <= i < |r| ==> k <= r[i] < |ps| && !ps[r[i]].isTransient
    ensures forall i, j :: 0 <= i < j < |r| ==> r[i] < r[j]
    ensures forall j :: k <= j < |ps| && !ps[j].isTransient ==> j in r
    decreases |ps| - k
  {
    if k == |ps| then []
    else if ps[k].isTransient then SlotsFrom(ps, k + 1)
    else [k] + SlotsFrom(ps, k + 1)
  }

  /** The positions of the properties that get a JSON adapter: every non-transient one. */
  function Slots(ps: seq<Property>): seq<nat> {
    SlotsFrom(ps, 0)
  }

  /** The properties that get a JSON adapter, in declaration order. */
  function Serialized(ps: seq<Property>): (r: seq<Property>)
    ensures |r| == |Slots(ps)|
    ensures forall p :: p in r <==> p in ps && !p.isTransient
  {
    var slots := Slots(ps);
    var r := seq(|slots|, i requires 0 <= i < |slots| => ps[slots[i]]);
    assert forall p :: p in ps && !p.isTransient ==> p in r by {
      forall p | p in ps && !p.isTransient
        ensures p in r
      {
        var j :| 0 <= j < |ps| && ps[j] == p;
        assert j in slots;
        var i :| 0 <= i < |slots| && slots[i] == j;
        assert r[i] == p;
      }
    }
    r
  }

  /** The wire names of the serialized properties, in order (the NAMES array's contents). */
  function WireNames(ps: seq<Property>): (r: seq<string>)
    ensures |r| == |ps|
    ensures forall i :: 0 <= i < |ps| ==> r[i] == SerializedName(ps[i])
  {
    if |ps| == 0 then [] else [SerializedName(ps[0])] + WireNames(ps[1..])
  }
}
