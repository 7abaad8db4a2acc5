/** BSON values, their type labels, and the flattening of tree locations to path strings
    (`address.street`, `photos[]`, `photos[].url`). */
module BsonValues {
  import opened Collections

  datatype ScalarKind =
    | Double | Str | Binary | Undefined | ObjectId | Boolean | DateTime | RegularExpression
    | JavaScript | JavaScriptWithScope | Symbol | Int32 | Int64 | Timestamp | Decimal128
    | DbPointer | MaxKey | MinKey

  datatype Field = Field(key: string, value: Bson)

  datatype Bson =
    | Null
    | Scalar(kind: ScalarKind, payload: string)
    | Document(fields: seq<Field>)
    | Array(items: seq<Bson>)
  {
    predicate IsLeaf(): (leaf: bool)
      ensures leaf <==> Null? || Scalar?
    {
      !Document? && !Array?
    }
  }

  const TRUNCATED := "<truncated>"

  function ScalarLabel(kind: ScalarKind): (l: string)
    ensures l != TRUNCATED && l != "mixed" && l != "unknown"
  {
    match kind
    case Double => "double"
    case Str => "string"
    case Binary => "binary"
    case Undefined => "undefined"
    case ObjectId => "object_id"
    case Boolean => "bool"
    case DateTime => "date_time"
    case RegularExpression => "regex"
    case JavaScript => "javascript"
    case JavaScriptWithScope => "javascript"
    case Symbol => "symbol"
    case Int32 => "int32"
    case Int64 => "int64"
    case Timestamp => "timestamp"
    case Decimal128 => "decimal128"
    case DbPointer => "db_pointer"
    case MaxKey => "max_key"
    case MinKey => "min_key"
  }

  function TypeLabel(value: Bson): (l: string)
    ensures l != TRUNCATED && l != "mixed" && l != "unknown"
  {
    match value
    case Null => "null"
    case Scalar(kind, _) => ScalarLabel(kind)
    case Document(_) => "document"
    case Array(_) => "array"
  }

  /** The BSON types of scalars that a type label stands for. */
  function KindsLabelled(text: string): set<ScalarKind> {
    if text == "double" then {Double}
    else if text == "string" then {Str}
    else if text == "binary" then {Binary}
    else if text == "undefined" then {Undefined}
    else if text == "object_id" then {ObjectId}
    else if text == "bool" then {Boolean}
    else if text == "date_time" then {DateTime}
    else if text == "regex" then {RegularExpression}
    else if text == "javascript" then {JavaScript, JavaScriptWithScope}
    else if text == "symbol" then {Symbol}
    else if text == "int32" then {Int32}
    else if text == "int64" then {Int64}
    else if text == "timestamp" then {Timestamp}
    else if text == "decimal128" then {Decimal128}
    else if text == "db_pointer" then {DbPointer}
    else if text == "max_key" then {MaxKey}
    else if text == "min_key" then {MinKey}
    else {}
  }

  /** Reading a label back gives the type it was made from. */
  lemma LabelReadBack(value: Bson)
    ensures value.Scalar? <==> KindsLabelled(TypeLabel(value)) != {}
    ensures value.Scalar? ==> value.kind in KindsLabelled(TypeLabel(value))
    ensures value.Null? <==> TypeLabel(value) == "null"
    ensures value.Document? <==> TypeLabel(value) == "document"
    ensures value.Array? <==> TypeLabel(value) == "array"
  {
  }

  /** Values of the same BSON type; the two JavaScript types count as one. */
  predicate SameType(a: Bson, b: Bson) {
    match (a, b)
    case (Null, Null) => true
    case (Document(_), Document(_)) => true
    case (Array(_), Array(_)) => true
    case (Scalar(k, _), Scalar(l, _)) =>
      k == l || (k in {JavaScript, JavaScriptWithScope} && l in {JavaScript, JavaScriptWithScope})
    case _ => false
  }

  /** Labels tell BSON types apart, and nothing finer. */
  lemma TypeLabelExact(a: Bson, b: Bson)
    ensures TypeLabel(a) == TypeLabel(b) <==> SameType(a, b)
  {
  }

  /** Documents are insertion-ordered maps: no key occurs twice. */
  ghost predicate UniqueKeys(fields: seq<Field>) {
    && (forall i, j :: 0 <= i < j < |fields| ==> fields[i].key != fields[j].key)
    && (forall i :: 0 <= i < |fields| ==> WellKeyed(fields[i].value))
  }

  ghost predicate WellKeyed(value: Bson) {
    match value
    case Document(fields) => UniqueKeys(fields)
    case Array(items) => forall i :: 0 <= i < |items| ==> WellKeyed(items[i])
    case _ => true
  }

  /** One step down from a container: to a named field, or to "some element" of an array. */
  datatype Segment = Key(name: string) | Element

  type Location = seq<Segment>

  predicate InArray(at: Location) {
    Element in at
  }

  function Render(at: Location): string {
    if at == [] then ""
    else match Last(at)
      case Element => Render(Front(at)) + "[]"
      case Key(name) => if |at| == 1 then name else Render(Front(at)) + "." + name
  }

  /** How a child's path string and array flag come from its parent's, and those of a field at the
      top from its name. */
  lemma ChildLocation(at: Location, s: Segment)
    requires at != []
    ensures s.Key? ==> Render([s]) == s.name && !InArray([s])
    ensures Render(at + [s]) == if s == Element then Render(at) + "[]" else Render(at) + "." + s.name
    ensures InArray(at + [s]) <==> InArray(at) || s == Element
  {
    assert Front(at + [s]) == at;
  }

  /** A field name that cannot be mistaken for path syntax. */
  predicate PlainName(name: string) {
    '.' !in name && !EndsInBrackets(name)
  }

  predicate EndsInBrackets(path: string) {
    |path| >= 2 && path[|path| - 2] == '[' && path[|path| - 1] == ']'
  }

  ghost predicate Rooted(at: Location) {
    at != [] && at[0].Key?
  }

  ghost predicate PlainLocation(at: Location) {
    && Rooted(at)
    && forall i :: 0 <= i < |at| && at[i].Key? ==> PlainName(at[i].name)
  }

  function LastDot(path: string): (i: int)
    ensures -1 <= i < |path|
    ensures i >= 0 ==> path[i] == '.'
    ensures forall k :: i < k < |path| ==> path[k] != '.'
  {
    if path == "" then -1
    else if Last(path) == '.' then |path| - 1
    else LastDot(Front(path))
  }

  /** Reads a path string back into a location, from the right. */
  function ParsePath(path: string): Location {
    if EndsInBrackets(path) then ParsePath(path[..|path| - 2]) + [Element]
    else
      var dot := LastDot(path);
      if dot < 0 then [Key(path)] else ParsePath(path[..dot]) + [Key(path[dot + 1..])]
  }

  lemma {:induction false} LastDotOf(path: string, i: int)
    requires -1 <= i < |path|
    requires i >= 0 ==> path[i] == '.'
    requires forall k :: i < k < |path| ==> path[k] != '.'
    ensures LastDot(path) == i
  {
    if path != "" && i < |path| - 1 {
      LastDotOf(Front(path), i);
    }
  }

  lemma ParseElement(parent: string)
    ensures ParsePath(parent + "[]") == ParsePath(parent) + [Element]
  {
    var path := parent + "[]";
    assert path[..|path| - 2] == parent;
  }

  lemma ParseField(parent: string, name: string)
    requires PlainName(name)
    ensures ParsePath(parent + "." + name) == ParsePath(parent) + [Key(name)]
  {
    var path := parent + "." + name;
    assert path[|parent| + 1..] == name && path[..|parent|] == parent;
    forall k | |parent| < k < |path| ensures path[k] != '.' {
      assert path[k] == name[k - |parent| - 1];
    }
    LastDotOf(path, |parent|);
    assert path[|parent|] == '.';
  }

  /** Flattening is invertible on plain locations: parsing undoes rendering. */
  lemma {:induction false} ParseRender(at: Location)
    requires PlainLocation(at)
    ensures ParsePath(Render(at)) == at
  {
    if |at| == 1 {
      LastDotOf(at[0].name, -1);
    } else {
      var parent := Front(at);
      assert PlainLocation(parent);
      ParseRender(parent);
      assert at == parent + [Last(at)];
      match Last(at)
      case Element => ParseElement(Render(parent));
      case Key(name) =>
        assert PlainName(at[|at| - 1].name);
        ParseField(Render(parent), name);
    }
  }

  /** Distinct plain locations (array indices aside) get distinct path strings. */
  lemma RenderInjective(a: Location, b: Location)
    requires PlainLocation(a) && PlainLocation(b)
    ensures Render(a) == Render(b) <==> a == b
  {
    ParseRender(a);
    ParseRender(b);
  }

  lemma NestedPathShape(at: Location)
    requires |at| >= 2
    ensures '.' in Render(at) || EndsInBrackets(Render(at))
  {
    var path := Render(at);
    match Last(at)
    case Element => assert path == Render(Front(at)) + "[]";
    case Key(_) => assert path[|Render(Front(at))|] == '.';
  }

  lemma BracketCollision(stem: string)
    ensures Rooted([Key(stem), Element]) && Render([Key(stem), Element]) == stem + "[]"
  {
    assert Front([Key(stem), Element]) == [Key(stem)];
  }

  lemma DotCollision(a: string, b: string)
    ensures Rooted([Key(a), Key(b)]) && Render([Key(a), Key(b)]) == a + "." + b
  {
    assert Front([Key(a), Key(b)]) == [Key(a)];
  }

  lemma Collision(name: string) returns (at: Location)
    requires !PlainName(name)
    ensures Rooted(at) && Render(at) == name && |at| == 2
  {
    hide Render, Rooted;
    if EndsInBrackets(name) {
      var stem := name[..|name| - 2];
      BracketCollision(stem);
      assert name == stem + "[]";
      at := [Key(stem), Element];
    } else {
      var i :| 0 <= i < |name| && name[i] == '.';
      DotCollision(name[..i], name[i + 1..]);
      assert name == name[..i] + "." + name[i + 1..];
      at := [Key(name[..i]), Key(name[i + 1..])];
    }
  }

  /** Plainness is exactly what is needed: a top-level field shares its path string with some
      other location just when its name is not plain. */
  lemma PlainNameExact(name: string)
    ensures PlainName(name) <==>
            forall at: Location :: Rooted(at) && Render(at) == name ==> at == [Key(name)]
  {
    if PlainName(name) {
      forall at: Location | Rooted(at) && Render(at) == name ensures at == [Key(name)] {
        if |at| > 1 {
          NestedPathShape(at);
        }
      }
    } else {
      hide Render, Rooted, PlainName;
      var at := Collision(name);
      assert at != [Key(name)];
    }
  }
}
