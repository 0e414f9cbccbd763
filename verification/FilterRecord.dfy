/** Records as nested maps, and the lookup of dotted fields in them. */
module FilterRecord {
  import opened Options
  import opened Text
  import opened FilterModel
  import opened FilterEvaluator

  /** A value in a record: a map, or anything else, known by its type and the text it prints as. */
  datatype Data = Scalar(kind: string, text: string) | Object(fields: map<string, Data>)

  // ----- dotted fields

  /** strings.Split at dots, with `cur` already read of the current part. */
  function Dots(s: string, cur: string): (parts: seq<string>)
    ensures |parts| >= 1
  {
    if s == [] then [cur]
    else if s[0] == '.' then [cur] + Dots(s[1..], [])
    else Dots(s[1..], cur + [s[0]])
  }

  function NonEmpty(parts: seq<string>): (r: seq<string>)
    ensures |r| <= |parts|
  {
    if parts == [] then []
    else if parts[0] == "" then NonEmpty(parts[1..])
    else [parts[0]] + NonEmpty(parts[1..])
  }

  /** The way a field takes through nested maps. */
  function Path(field: string): (p: seq<string>) {
    NonEmpty(Dots(field, []))
  }

  function Get(d: Data, path: seq<string>): (r: Option<Data>)
    decreases path
  {
    if path == [] then Some(d)
    else if d.Object? && path[0] in d.fields then Get(d.fields[path[0]], path[1..])
    else None
  }

  /** The loop over the parts of a field. */
  method GetNestedValue(data: Data, field: string) returns (r: Option<Data>)
    ensures r == Get(data, Path(field))
  {
    var parts := Dots(field, []);
    var current := data;
    assert parts[0..] == parts;
    for i := 0 to |parts|
      invariant Get(data, Path(field)) == Get(current, NonEmpty(parts[i..]))
    {
      assert parts[i..][0] == parts[i] && parts[i..][1..] == parts[i + 1..];
      if parts[i] != "" {
        var rest := NonEmpty(parts[i + 1..]);
        assert NonEmpty(parts[i..])[1..] == rest;
        if current.Object? && parts[i] in current.fields {
          current := current.fields[parts[i]];
        } else {
          return None;
        }
      }
    }
    return Some(current);
  }

  /** The parts of a field, joined by dots, are the field. */
  lemma {:induction false} DotsJoin(s: string, cur: string)
    ensures Join(Dots(s, cur), ".") == cur + s
  {
    if s == [] {
      assert cur + s == cur;
    } else if s[0] == '.' {
      DotsJoin(s[1..], []);
      var rest := Dots(s[1..], []);
      assert ([cur] + rest)[1..] == rest;
      assert "." + s[1..] == s;
      assert cur + "." + s[1..] == cur + ("." + s[1..]);
    } else {
      DotsJoin(s[1..], cur + [s[0]]);
      assert cur + [s[0]] + s[1..] == cur + s;
    }
  }

  predicate AllNonEmpty(parts: seq<string>) {
    forall i :: 0 <= i < |parts| ==> parts[i] != ""
  }

  lemma {:induction false} NonEmptyParts(parts: seq<string>)
    ensures AllNonEmpty(NonEmpty(parts)) && (AllNonEmpty(parts) ==> NonEmpty(parts) == parts)
  {
    if parts != [] {
      NonEmptyParts(parts[1..]);
      if AllNonEmpty(parts) {
        assert parts == [parts[0]] + parts[1..];
      }
    }
  }

  /** The way of a field has no empty part, and joined by dots it is the field if the field has none. */
  lemma PathJoin(field: string)
    ensures AllNonEmpty(Path(field)) && (AllNonEmpty(Dots(field, [])) ==> Join(Path(field), ".") == field)
  {
    NonEmptyParts(Dots(field, []));
    DotsJoin(field, []);
    assert [] + field == field;
  }

  // ----- fields that lie apart

  /** One field lies on the way to the other. */
  predicate Clash(f: string, g: string) {
    Path(f) <= Path(g) || Path(g) <= Path(f)
  }

  lemma {:induction false} DotsHead(s: string, cur: string)
    ensures cur <= Dots(s, cur)[0]
  {
    if s != [] && s[0] != '.' {
      DotsHead(s[1..], cur + [s[0]]);
    }
  }

  predicate Without(parts: seq<string>, c: char) {
    forall i :: 0 <= i < |parts| ==> c !in parts[i]
  }

  lemma {:induction false} DotsWithout(s: string, cur: string, c: char)
    requires c !in s && c !in cur
    ensures Without(Dots(s, cur), c)
  {
    if s != [] {
      if s[0] == '.' {
        DotsWithout(s[1..], [], c);
      } else {
        DotsWithout(s[1..], cur + [s[0]], c);
      }
    }
  }

  lemma {:induction false} NonEmptyWithout(parts: seq<string>, c: char)
    requires Without(parts, c)
    ensures Without(NonEmpty(parts), c)
  {
    if parts != [] {
      NonEmptyWithout(parts[1..], c);
    }
  }

  /** A field that starts with a character another lacks lies apart from it, if that leads anywhere. */
  lemma OddFieldApart(g: string, f: string)
    requires g != [] && g[0] != '.' && g[0] !in f && Path(f) != []
    ensures !Clash(g, f) && !Clash(f, g)
  {
    var c := [g[0]];
    assert [] + c == c;
    DotsHead(g[1..], c);
    var parts := Dots(g, []);
    assert parts[0][0] == g[0];
    assert Path(g)[0] == parts[0];
    DotsWithout(f, [], g[0]);
    NonEmptyWithout(Dots(f, []), g[0]);
    assert g[0] !in Path(f)[0];
  }

  // ----- building records

  /** The value with `v` put at the end of the way; maps are made, and values replaced by maps, as needed. */
  function Put(d: Data, path: seq<string>, v: Data): (r: Data)
    ensures path != [] ==> r.Object?
    decreases path
  {
    if path == [] then v
    else
      var fields := if d.Object? then d.fields else map[];
      var sub := if path[0] in fields then fields[path[0]] else Object(map[]);
      Object(fields[path[0] := Put(sub, path[1..], v)])
  }

  lemma {:induction false} PutSame(d: Data, path: seq<string>, v: Data)
    ensures Get(Put(d, path, v), path) == Some(v)
    decreases path
  {
    if path != [] {
      var fields := if d.Object? then d.fields else map[];
      PutSame(if path[0] in fields then fields[path[0]] else Object(map[]), path[1..], v);
    }
  }

  /** What lies apart from the way is left as it was. */
  lemma {:induction false} PutOther(d: Data, path: seq<string>, v: Data, other: seq<string>)
    requires !(path <= other) && !(other <= path)
    ensures Get(Put(d, path, v), other) == Get(d, other)
    decreases path
  {
    var fields := if d.Object? then d.fields else map[];
    if path[0] == other[0] {
      assert path == [path[0]] + path[1..] && other == [other[0]] + other[1..];
      var sub := if path[0] in fields then fields[path[0]] else Object(map[]);
      PutOther(sub, path[1..], v, other[1..]);
    }
  }

  /** The record as the evaluators see it, for a fixed comparison of values. */
  function Seen(record: Data, isNil: Data -> bool, compare: (Data, Operator, Value) -> Verdict): (env: Env<Data>) {
    Env((f: string) => Get(record, Path(f)), isNil, compare)
  }
}
