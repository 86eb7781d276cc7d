/**
 * Values, record references, field metadata and the small pure helpers of
 * the record cache: the comparison that orders many-to-many link slots and
 * the splitting of dotted field paths.
 */
module CacheTypes {

  /** A model is identified by its name; "" stands for the nil model pointer. */
  type ModelName = string

  /** A key of the identity map: one record of one model. */
  datatype CacheRef = CacheRef(model: ModelName, id: int)

  /** The zero reference that a lookup of an absent scheduled-insert key yields. */
  const ZeroRef: CacheRef := CacheRef("", 0)

  /** A cached field value: the dynamic shapes the cache inspects. */
  datatype Value =
    | Nil
    | Int(n: int)          // an int64: a scalar or a foreign-key id
    | Ids(ids: seq<int>)   // a []int64: One2Many / Many2Many targets
    | Bool(b: bool)        // also the "touched" marker of relation fields
    | Text(s: string)      // any other scalar

  /** The field-name-to-value map of one record. */
  type FieldMap = map<string, Value>

  datatype FieldKind = Plain | Many2One | One2One | One2Many | Rev2One | Many2Many

  /** Relation kinds whose value is a foreign key stored in the record. */
  predicate IsFkRelation(k: FieldKind) {
    k == Many2One || k == One2One
  }

  /** Metadata of one field, as the field registry provides it. */
  datatype Field = Field(
    kind: FieldKind,
    relatedModel: ModelName,
    reverseFK: string,
    m2mRelModel: ModelName,
    m2mOurField: string,
    m2mTheirField: string)

  /** The field registry: model name to json field name to metadata. */
  type Schema = map<ModelName, map<string, Field>>

  predicate Known(schema: Schema, model: ModelName, name: string) {
    model in schema && name in schema[model]
  }

  /** What the cache relies on from the registry. */
  ghost predicate SchemaOk(schema: Schema) {
    && (forall m :: m in schema ==> "id" in schema[m] && schema[m]["id"].kind == Plain)
    && (forall m, f :: m in schema && f in schema[m] ==> '.' !in f)
    && (forall m, f {:trigger schema[m][f].relatedModel} ::
          m in schema && f in schema[m] && schema[m][f].kind != Plain ==>
          schema[m][f].relatedModel in schema)
    && (forall m, f {:trigger schema[m][f].reverseFK} ::
          m in schema && f in schema[m] && schema[m][f].kind in {One2Many, Rev2One} ==>
          Known(schema, schema[m][f].relatedModel, schema[m][f].reverseFK) &&
          IsFkRelation(schema[schema[m][f].relatedModel][schema[m][f].reverseFK].kind))
  }

  /** No element occurs twice. */
  predicate Distinct<T(==)>(s: seq<T>) {
    forall i, j :: 0 <= i < j < |s| ==> s[i] != s[j]
  }

  /** Extending `a` by a prefix of `s` and then the next element of `s` extends it by the one-longer prefix. */
  lemma PrefixSnoc<T>(a: seq<T>, s: seq<T>, n: int)
    requires 0 <= n < |s|
    ensures a + s[..n] + [s[n]] == a + s[..n + 1]
  {
    assert s[..n] + [s[n]] == s[..n + 1];
  }

  /** Extending `a` by no element of `s` leaves it alone; by all of them, appends `s`. */
  lemma PrefixEnds<T>(a: seq<T>, s: seq<T>)
    ensures a + s[..0] == a && a + s[..|s|] == a + s
  {
    assert s[..|s|] == s;
  }

  /** The first `n` elements of `s` are elements of `s`, at the same positions. */
  lemma PrefixOf<T>(s: seq<T>, n: int)
    requires 0 <= n <= |s|
    ensures |s[..n]| == n
    ensures forall j :: 0 <= j < n ==> s[..n][j] == s[j]
    ensures forall x :: x in s[..n] ==> x in s
  {
  }

  /** Appending one element keeps the front and puts the element last. */
  lemma SnocOf<T>(s: seq<T>, x: T)
    ensures |s + [x]| == |s| + 1
    ensures (s + [x])[..|s|] == s && (s + [x])[|s|] == x
    ensures forall j :: 0 <= j < |s| ==> (s + [x])[j] == s[j]
    ensures forall y :: y in s + [x] <==> y in s || y == x
  {
  }

  /** The dynamic shape a write of this kind asserts (a failed Go type assertion panics). */
  predicate Fits(k: FieldKind, v: Value) {
    match k
    case One2Many => v.Ids?
    case Rev2One => v.Int?
    case Many2Many => v.Ids?
    case _ => true
  }

  // ---------------------------------------------------------------------------
  // String comparison and many-to-many link slots
  // ---------------------------------------------------------------------------

  /** Lexicographic three-way comparison, -1, 0 or 1. */
  function Compare(a: string, b: string): (c: int)
    ensures -1 <= c <= 1
    ensures c == 0 <==> a == b
  {
    if a == [] && b == [] then 0
    else if a == [] then -1
    else if b == [] then 1
    else if a[0] < b[0] then -1
    else if b[0] < a[0] then 1
    else Compare(a[1..], b[1..])
  }

  lemma {:induction false} CompareAntisymmetric(a: string, b: string)
    ensures Compare(b, a) == -Compare(a, b)
  {
    if a != [] && b != [] && a[0] == b[0] {
      CompareAntisymmetric(a[1..], b[1..]);
    }
  }

  /** The slot of a link that holds the id of the record on our side. */
  function OurIndex(our: string, their: string): (i: int)
    ensures i == (if Compare(our, their) == 1 then 1 else 0)
  {
    (Compare(our, their) + 1) / 2
  }

  function TheirIndex(our: string, their: string): (i: int)
    ensures i == 1 - OurIndex(our, their)
  {
    (OurIndex(our, their) + 1) % 2
  }

  /**
   * Seen from the other end of the relation (our and their names swapped),
   * our slot is their slot: both ends address the same stored link.
   */
  lemma SlotsSwapWithSides(our: string, their: string)
    requires our != their
    ensures OurIndex(their, our) == TheirIndex(our, their)
    ensures TheirIndex(their, our) == OurIndex(our, their)
  {
    CompareAntisymmetric(our, their);
  }

  /** One row of a relation table: a pair of record ids. */
  datatype Link = Link(slot0: int, slot1: int) {
    function At(i: int): int {
      if i == 0 then slot0 else slot1
    }
  }

  /** The link whose slot `our` holds `id` and whose other slot holds `val`. */
  function NewLink(our: int, id: int, val: int): (l: Link)
    requires 0 <= our <= 1
    ensures l.At(our) == id && l.At(1 - our) == val
  {
    if our == 0 then Link(id, val) else Link(val, id)
  }

  /** The ids linked to `id` when `id` is read from slot `our`. */
  function LinkedIds(links: set<Link>, our: int, id: int): set<int>
  {
    set l | l in links && l.At(our) == id :: l.At(1 - our)
  }

  /**
   * Both ends of a many-to-many relation see the same links: b is linked to a
   * from our side exactly when a is linked to b from their side.
   */
  lemma LinkSeenFromBothSides(links: set<Link>, our: string, their: string, a: int, b: int)
    requires our != their
    ensures b in LinkedIds(links, OurIndex(our, their), a)
        <==> a in LinkedIds(links, OurIndex(their, our), b)
  {
    SlotsSwapWithSides(our, their);
    var i := OurIndex(our, their);
    if b in LinkedIds(links, i, a) {
      var l :| l in links && l.At(i) == a && l.At(1 - i) == b;
      assert l.At(1 - (1 - i)) == a;
    }
    if a in LinkedIds(links, 1 - i, b) {
      var l :| l in links && l.At(1 - i) == b && l.At(1 - (1 - i)) == a;
      assert l.At(i) == a;
    }
  }

  // ---------------------------------------------------------------------------
  // Dotted field paths
  // ---------------------------------------------------------------------------

  /** The path separator. */
  const ExprSep: char := '.'

  /** Splits a path at every separator; like Go's strings.Split, never empty. */
  function Split(s: string): (segs: seq<string>)
    ensures |segs| >= 1
    ensures forall i :: 0 <= i < |segs| ==> ExprSep !in segs[i]
  {
    if s == [] then [""]
    else
      var rest := Split(s[1..]);
      if s[0] == ExprSep then [""] + rest
      else [[s[0]] + rest[0]] + rest[1..]
  }

  /** Joins segments with the separator, like Go's strings.Join. */
  function Join(segs: seq<string>): string
    requires |segs| >= 1
  {
    if |segs| == 1 then segs[0] else segs[0] + [ExprSep] + Join(segs[1..])
  }

  /** Splitting then joining gives the path back. */
  lemma {:induction false} JoinSplit(s: string)
    ensures Join(Split(s)) == s
  {
    if s != [] {
      JoinSplit(s[1..]);
      var rest := Split(s[1..]);
      if s[0] != ExprSep {
        var segs := [[s[0]] + rest[0]] + rest[1..];
        assert segs[1..] == rest[1..];
        if |rest| > 1 {
          assert Join(rest) == rest[0] + [ExprSep] + Join(rest[1..]);
        }
        assert s == [s[0]] + s[1..];
      } else {
        assert ([""] + rest)[1..] == rest;
        assert s == [s[0]] + s[1..];
      }
    }
  }

  /** Joining separator-free segments then splitting gives the segments back. */
  lemma {:induction false} SplitJoin(segs: seq<string>)
    requires |segs| >= 1
    requires forall i :: 0 <= i < |segs| ==> ExprSep !in segs[i]
    ensures Split(Join(segs)) == segs
  {
    if |segs| == 1 {
      SplitNoSep(segs[0]);
    } else {
      SplitJoin(segs[1..]);
      SplitPrefix(segs[0], Join(segs[1..]));
      assert [segs[0]] + segs[1..] == segs;
    }
  }

  /** A name without separator is a one-segment path. */
  lemma {:induction false} SplitNoSep(s: string)
    requires ExprSep !in s
    ensures Split(s) == [s]
  {
    if s != [] {
      SplitNoSep(s[1..]);
      assert [s[0]] + s[1..] == s;
    }
  }

  lemma {:induction false} SplitPrefix(a: string, b: string)
    requires ExprSep !in a
    ensures Split(a + [ExprSep] + b) == [a] + Split(b)
  {
    if a == [] {
      assert a + [ExprSep] + b == [ExprSep] + b;
      assert ([ExprSep] + b)[1..] == b;
    } else {
      SplitPrefix(a[1..], b);
      assert (a + [ExprSep] + b)[1..] == a[1..] + [ExprSep] + b;
      assert [a[0]] + a[1..] == a;
    }
  }

  /** A path of one segment is that segment: the path is a bare field name. */
  lemma OneSegmentPath(path: string)
    requires SegmentCount(path) == 1
    ensures Split(path) == [path]
  {
    JoinSplit(path);
  }

  /**
   * A path the registry accepts from `model`: every segment names a field,
   * and every segment but the last is a relation field.
   */
  ghost predicate ValidPath(schema: Schema, model: ModelName, segs: seq<string>)
    decreases |segs|
  {
    && |segs| >= 1
    && Known(schema, model, segs[0])
    && (|segs| > 1 ==>
          schema[model][segs[0]].kind != Plain &&
          ValidPath(schema, schema[model][segs[0]].relatedModel, segs[1..]))
  }

  /** The model that owns the last segment of a valid path. */
  ghost function PathModel(schema: Schema, model: ModelName, segs: seq<string>): (m: ModelName)
    requires ValidPath(schema, model, segs)
    ensures Known(schema, m, segs[|segs| - 1])
    decreases |segs|
  {
    if |segs| == 1 then model
    else PathModel(schema, schema[model][segs[0]].relatedModel, segs[1..])
  }

  /** The field a valid path ends on. */
  ghost function PathField(schema: Schema, model: ModelName, segs: seq<string>): Field
    requires ValidPath(schema, model, segs)
  {
    schema[PathModel(schema, model, segs)][segs[|segs| - 1]]
  }

  /** The number of segments of a path; addRecord orders its keys by it. */
  function SegmentCount(path: string): (n: nat)
    ensures n >= 1
  {
    |Split(path)|
  }
}
