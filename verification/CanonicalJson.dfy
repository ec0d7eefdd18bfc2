/**
 * Canonical JSON text with the keys of every object in order. Text is characters: comparing them by
 * code point is comparing their UTF-8 bytes.
 */
module CanonicalJson {
  import opened Prelude
  import opened Decimal

  /** A number that is neither a 64-bit signed nor a 64-bit unsigned integer is a `Float`. */
  datatype Value =
    | Null
    | Bool(value: bool)
    | Number(number: int)
    | Float(text: string)
    | Text(chars: string)
    | Array(items: seq<Value>)
    | Object(fields: map<string, Value>)

  // ----- key order -----

  predicate Before(a: string, b: string) {
    b != [] && (a == [] || a[0] < b[0] || (a[0] == b[0] && Before(a[1..], b[1..])))
  }

  /** Where two keys first differ the smaller character comes first, and a key comes before what it begins. */
  predicate Precedes(a: string, b: string) {
    a < b || exists i :: 0 <= i < |a| && i < |b| && a[..i] == b[..i] && a[i] < b[i]
  }

  lemma {:induction false} BeforePrecedes(a: string, b: string)
    requires Before(a, b)
    ensures Precedes(a, b)
  {
    if a == [] {
      assert a < b;
    } else if a[0] < b[0] {
      assert a[..0] == b[..0];
    } else {
      BeforePrecedes(a[1..], b[1..]);
      if a[1..] < b[1..] {
        assert a == [a[0]] + a[1..] && b == [b[0]] + b[1..];
      } else {
        var i :| 0 <= i < |a[1..]| && i < |b[1..]| && a[1..][..i] == b[1..][..i] && a[1..][i] < b[1..][i];
        assert a[..i + 1] == [a[0]] + a[1..][..i] && b[..i + 1] == [b[0]] + b[1..][..i];
        assert a[i + 1] < b[i + 1];
      }
    }
  }

  lemma {:induction false} DiffersBefore(a: string, b: string, i: nat)
    requires i < |a| && i < |b| && a[..i] == b[..i] && a[i] < b[i]
    ensures Before(a, b)
  {
    if i > 0 {
      assert a[0] == a[..i][0] && b[0] == b[..i][0];
      assert a[1..][..i - 1] == a[..i][1..] && b[1..][..i - 1] == b[..i][1..];
      DiffersBefore(a[1..], b[1..], i - 1);
    }
  }

  lemma {:induction false} PrefixBefore(a: string, b: string)
    requires a < b
    ensures Before(a, b)
  {
    if a != [] {
      PrefixBefore(a[1..], b[1..]);
    }
  }

  /** The order of keys is the dictionary order of their characters. */
  lemma BeforeIff(a: string, b: string)
    ensures Before(a, b) <==> Precedes(a, b)
  {
    if Before(a, b) {
      BeforePrecedes(a, b);
    }
    if Precedes(a, b) {
      if a < b {
        PrefixBefore(a, b);
      } else {
        var i :| 0 <= i < |a| && i < |b| && a[..i] == b[..i] && a[i] < b[i];
        DiffersBefore(a, b, i);
      }
    }
  }

  lemma {:induction false} BeforeTotal(a: string, b: string)
    ensures Before(a, b) || a == b || Before(b, a)
  {
    if a != [] && b != [] {
      BeforeTotal(a[1..], b[1..]);
      if a[0] == b[0] && a[1..] == b[1..] {
        assert a == [a[0]] + a[1..] == b;
      }
    }
  }

  lemma {:induction false} BeforeTransitive(a: string, b: string, c: string)
    requires Before(a, b) && Before(b, c)
    ensures Before(a, c)
  {
    if a != [] && a[0] == b[0] == c[0] {
      BeforeTransitive(a[1..], b[1..], c[1..]);
    }
  }

  lemma {:induction false} BeforeIrreflexive(a: string)
    ensures !Before(a, a)
  {
    if a != [] {
      BeforeIrreflexive(a[1..]);
    }
  }

  /** Nothing in the set comes before `k`. */
  ghost predicate LeastOf(s: set<string>, k: string) {
    k in s && forall j :: j in s && j != k ==> Before(k, j)
  }

  lemma {:induction false} LeastExists(s: set<string>)
    requires s != {}
    ensures exists k :: LeastOf(s, k)
    decreases |s|
  {
    var k :| k in s;
    if s == {k} {
      assert LeastOf(s, k);
    } else {
      LeastExists(s - {k});
      var l :| LeastOf(s - {k}, l);
      BeforeTotal(k, l);
      forall j | j in s && j != k && Before(k, l) ensures Before(k, j) {
        if j != l {
          BeforeTransitive(k, l, j);
        }
      }
      assert LeastOf(s, if Before(k, l) then k else l);
    }
  }

  ghost function Least(s: set<string>): (k: string)
    requires s != {}
    ensures LeastOf(s, k)
  {
    LeastExists(s);
    var k :| LeastOf(s, k);
    k
  }

  /** The keys in ascending order. */
  ghost function InOrder(s: set<string>): seq<string>
    decreases |s|
  {
    if s == {} then [] else [Least(s)] + InOrder(s - {Least(s)})
  }

  ghost predicate Ascending(keys: seq<string>) {
    forall i, j :: 0 <= i < j < |keys| ==> Before(keys[i], keys[j])
  }

  ghost function Elements(keys: seq<string>): set<string> {
    set k | k in keys
  }

  lemma {:induction false} InOrderElements(s: set<string>)
    ensures Elements(InOrder(s)) == s
    decreases |s|
  {
    if s != {} {
      var k := Least(s);
      InOrderElements(s - {k});
      assert Elements([k] + InOrder(s - {k})) == {k} + Elements(InOrder(s - {k}));
      assert s == {k} + (s - {k});
    }
  }

  lemma AscendingTail(keys: seq<string>)
    requires keys != [] && Ascending(keys)
    ensures LeastOf(Elements(keys), keys[0])
    ensures Ascending(keys[1..]) && Elements(keys[1..]) == Elements(keys) - {keys[0]}
  {
    BeforeIrreflexive(keys[0]);
    assert keys == [keys[0]] + keys[1..];
  }

  lemma LeastUnique(s: set<string>, k: string, l: string)
    requires LeastOf(s, k) && LeastOf(s, l)
    ensures k == l
  {
    if k != l {
      BeforeTransitive(k, l, k);
      BeforeIrreflexive(k);
    }
  }

  /** There is only one ascending sequence of the same keys. */
  lemma {:induction false} AscendingUnique(keys: seq<string>)
    requires Ascending(keys)
    ensures keys == InOrder(Elements(keys))
    decreases |keys|
  {
    if keys != [] {
      AscendingTail(keys);
      LeastUnique(Elements(keys), keys[0], Least(Elements(keys)));
      AscendingUnique(keys[1..]);
      assert keys == [keys[0]] + keys[1..];
    }
  }

  lemma {:induction false} InOrderAscends(s: set<string>)
    ensures Ascending(InOrder(s))
    decreases |s|
  {
    if s != {} {
      var k, rest := Least(s), InOrder(s - {Least(s)});
      InOrderAscends(s - {k});
      InOrderElements(s - {k});
      forall i, j | 0 <= i < j < |[k] + rest|
        ensures Before(([k] + rest)[i], ([k] + rest)[j])
      {
        assert rest[j - 1] in Elements(rest);
      }
    }
  }

  // ----- text -----

  function Hex(d: nat): char
    requires d < 16
  {
    if d < 10 then '0' + d as char else 'a' + (d - 10) as char
  }

  function Escaped(c: char): string {
    if c == '\"' then "\\\"" else if c == '\\' then "\\\\"
    else if c == 8 as char then "\\b" else if c == '\t' then "\\t" else if c == '\n' then "\\n"
    else if c == 12 as char then "\\f" else if c == '\r' then "\\r"
    else if c < ' ' then "\\u00" + [Hex(c as nat / 16), Hex(c as nat % 16)]
    else [c]
  }

  /** The characters escaped, and the closing quote. */
  function Rest(chars: string): string {
    if chars == [] then "\"" else Escaped(chars[0]) + Rest(chars[1..])
  }

  function Quoted(chars: string): string {
    "\"" + Rest(chars)
  }

  function Integer(n: int): string {
    if n < 0 then "-" + Print(-n) else Print(n)
  }

  predicate FloatFree(v: Value) {
    match v
    case Float(_) => false
    case Array(items) => forall i :: 0 <= i < |items| ==> FloatFree(items[i])
    case Object(fields) => forall k :: k in fields ==> FloatFree(fields[k])
    case _ => true
  }

  ghost function Canon(v: Value): string
    requires FloatFree(v)
    decreases v, 1, 0
  {
    match v
    case Null => "null"
    case Bool(b) => if b then "true" else "false"
    case Number(n) => Integer(n)
    case Text(chars) => Quoted(chars)
    case Array(items) => "[" + Items(v, 0)
    case Object(fields) => InOrderElements(fields.Keys); "{" + Fields(v, InOrder(fields.Keys), true)
  }

  /** The items from the i-th on, each after the first with its comma, and the closing bracket. */
  ghost function Items(v: Value, i: nat): string
    requires v.Array? && FloatFree(v) && i <= |v.items|
    decreases v, 0, |v.items| - i
  {
    if i == |v.items| then "]" else (if i == 0 then "" else ",") + Canon(v.items[i]) + Items(v, i + 1)
  }

  ghost function Fields(v: Value, keys: seq<string>, first: bool): string
    requires v.Object? && FloatFree(v) && forall k :: k in keys ==> k in v.fields
    decreases v, 0, |keys|
  {
    if keys == [] then "}"
    else (if first then "" else ",") + Quoted(keys[0]) + ":" + Canon(v.fields[keys[0]]) + Fields(v, keys[1..], false)
  }

  // ----- the printer -----

  lemma ElementsInserted(keys: seq<string>, at: nat, key: string)
    requires at <= |keys|
    ensures Elements(keys[..at] + [key] + keys[at..]) == Elements(keys) + {key}
  {
    assert keys == keys[..at] + keys[at..];
  }

  /** Puts a new key where it belongs among ascending ones. */
  method Insert(keys: seq<string>, key: string) returns (r: seq<string>)
    requires Ascending(keys) && key !in keys
    ensures Ascending(r) && Elements(r) == Elements(keys) + {key}
  {
    var at := 0;
    while at < |keys| && Before(keys[at], key)
      invariant at <= |keys| && forall i :: 0 <= i < at ==> Before(keys[i], key)
    {
      at := at + 1;
    }
    forall i | at <= i < |keys| ensures Before(key, keys[i]) {
      BeforeTotal(keys[at], key);
      if at < i {
        BeforeTransitive(key, keys[at], keys[i]);
      }
    }
    ElementsInserted(keys, at, key);
    r := keys[..at] + [key] + keys[at..];
  }

  /** The keys of an object, met in any order and put in order. */
  method SortKeys(fields: map<string, Value>) returns (keys: seq<string>)
    ensures keys == InOrder(fields.Keys) && Elements(keys) == fields.Keys
    ensures forall i, j :: 0 <= i < j < |keys| ==> Precedes(keys[i], keys[j])
  {
    keys := [];
    var left := fields.Keys;
    while left != {}
      invariant left <= fields.Keys && Ascending(keys) && Elements(keys) == fields.Keys - left
      decreases |left|
    {
      var key :| key in left;
      assert key !in Elements(keys);
      keys := Insert(keys, key);
      left := left - {key};
    }
    assert Elements(keys) == fields.Keys;
    AscendingUnique(keys);
    forall i, j | 0 <= i < j < |keys|
      ensures Precedes(keys[i], keys[j])
    {
      BeforeIff(keys[i], keys[j]);
    }
  }

  /** The text so far, and what is still to come, make up the whole. */
  ghost predicate ItemsPrinted(v: Value, i: nat, start: string, text: string) {
    && v.Array? && i <= |v.items| && (forall j :: 0 <= j < i ==> FloatFree(v.items[j]))
    && (FloatFree(v) ==> text + Items(v, i) == start + Items(v, 0))
  }

  lemma ItemPrinted(v: Value, i: nat, start: string, text: string)
    requires ItemsPrinted(v, i, start, text) && i < |v.items| && FloatFree(v.items[i])
    ensures ItemsPrinted(v, i + 1, start, text + (if i == 0 then "" else ",") + Canon(v.items[i]))
  {
    if FloatFree(v) {
      Appended(text, if i == 0 then "" else ",", Canon(v.items[i]), Items(v, i + 1));
    }
  }

  lemma Appended<T>(a: seq<T>, b: seq<T>, c: seq<T>, d: seq<T>)
    ensures (a + b + c) + d == a + (b + c + d)
  {
  }

  method AppendItems(v: Value, start: string) returns (r: Option<string>)
    requires v.Array?
    ensures r.Some? <==> FloatFree(v)
    ensures r.Some? ==> r.value == start + Items(v, 0)
    decreases v, 0
  {
    var text, i := start, 0;
    while i < |v.items|
      invariant ItemsPrinted(v, i, start, text)
    {
      var next := Append(v.items[i], text + if i == 0 then "" else ",");
      if next.None? {
        return None;
      }
      ItemPrinted(v, i, start, text);
      text, i := next.value, i + 1;
    }
    return Some(text + "]");
  }

  ghost predicate FieldsPrinted(v: Value, keys: seq<string>, i: nat, start: string, text: string) {
    && v.Object? && i <= |keys| && Elements(keys) == v.fields.Keys
    && (forall j :: 0 <= j < i ==> FloatFree(v.fields[keys[j]]))
    && (FloatFree(v) ==> text + Fields(v, keys[i..], i == 0) == start + Fields(v, keys, true))
  }

  lemma FieldPrinted(v: Value, keys: seq<string>, i: nat, start: string, text: string)
    requires FieldsPrinted(v, keys, i, start, text) && i < |keys| && FloatFree(v.fields[keys[i]])
    ensures FieldsPrinted(v, keys, i + 1, start,
                          text + (if i == 0 then "" else ",") + Quoted(keys[i]) + ":" + Canon(v.fields[keys[i]]))
  {
    assert keys[i..][1..] == keys[i + 1..];
    if FloatFree(v) {
      FieldAppended(text, if i == 0 then "" else ",", Quoted(keys[i]), ":", Canon(v.fields[keys[i]]), Fields(v, keys[i + 1..], false));
    }
  }

  lemma FieldAppended<T>(a: seq<T>, b: seq<T>, c: seq<T>, d: seq<T>, e: seq<T>, f: seq<T>)
    ensures (a + b + c + d + e) + f == a + (b + c + d + e + f)
  {
  }

  method AppendField(v: Value, key: string, first: bool, text: string) returns (r: Option<string>)
    requires v.Object? && key in v.fields
    ensures r.Some? <==> FloatFree(v.fields[key])
    ensures r.Some? ==> r.value == text + (if first then "" else ",") + Quoted(key) + ":" + Canon(v.fields[key])
    decreases v, 0, 0
  {
    r := Append(v.fields[key], text + (if first then "" else ",") + Quoted(key) + ":");
  }

  method AppendFields(v: Value, keys: seq<string>, start: string) returns (r: Option<string>)
    requires v.Object? && Elements(keys) == v.fields.Keys
    ensures r.Some? <==> FloatFree(v)
    ensures r.Some? ==> r.value == start + Fields(v, keys, true)
    decreases v, 0, 1
  {
    var text, i := start, 0;
    assert keys[0..] == keys;
    while i < |keys|
      invariant FieldsPrinted(v, keys, i, start, text)
    {
      assert keys[i] in Elements(keys);
      var next := AppendField(v, keys[i], i == 0, text);
      if next.None? {
        return None;
      }
      FieldPrinted(v, keys, i, start, text);
      text, i := next.value, i + 1;
    }
    FieldsDone(v, keys, start, text);
    return Some(text + "}");
  }

  lemma FieldsDone(v: Value, keys: seq<string>, start: string, text: string)
    requires FieldsPrinted(v, keys, |keys|, start, text)
    ensures FloatFree(v) && text + "}" == start + Fields(v, keys, true)
  {
    forall k | k in v.fields ensures FloatFree(v.fields[k]) {
      assert k in Elements(keys);
    }
    assert keys[|keys|..] == [];
  }

  lemma Opened(bytes: string, bracket: string, inside: string)
    ensures (bytes + bracket) + inside == bytes + (bracket + inside)
  {
  }

  method AppendArray(v: Value, bytes: string) returns (r: Option<string>)
    requires v.Array?
    ensures r.Some? <==> FloatFree(v)
    ensures r.Some? ==> r.value == bytes + Canon(v)
    decreases v, 1
  {
    r := AppendItems(v, bytes + "[");
    if r.Some? {
      Opened(bytes, "[", Items(v, 0));
    }
  }

  method AppendObject(v: Value, bytes: string) returns (r: Option<string>)
    requires v.Object?
    ensures r.Some? <==> FloatFree(v)
    ensures r.Some? ==> r.value == bytes + Canon(v)
    decreases v, 1
  {
    var keys := SortKeys(v.fields);
    InOrderElements(v.fields.Keys);
    r := AppendFields(v, keys, bytes + "{");
    if r.Some? {
      Opened(bytes, "{", Fields(v, keys, true));
    }
  }

  /** Appends the canonical text; refused exactly when a number is not an integer. */
  method Append(v: Value, bytes: string) returns (r: Option<string>)
    ensures r.Some? <==> FloatFree(v)
    ensures r.Some? ==> r.value == bytes + Canon(v)
    decreases v, 2
  {
    match v
    case Null => r := Some(bytes + "null");
    case Bool(b) => r := Some(bytes + if b then "true" else "false");
    case Number(n) => r := Some(bytes + Integer(n));
    case Float(_) => r := None;
    case Text(chars) => r := Some(bytes + Quoted(chars));
    case Array(_) => r := AppendArray(v, bytes);
    case Object(_) => r := AppendObject(v, bytes);
  }
}
