/**
 * Frontmatter as the host's metadata cache hands it to the plugin: a JavaScript
 * object whose own keys keep their insertion order, holding YAML values.
 */
module Records {

  /** A YAML frontmatter value. Numbers are taken to be integers. */
  datatype Value = Str(s: string) | Num(n: int) | Bool(b: bool) | Null | List(items: seq<Value>)

  /** JavaScript truthiness: `''`, `0`, `false` and `null` are falsy; every array is truthy. */
  predicate Truthy(v: Value) {
    match v
    case Str(s) => s != ""
    case Num(n) => n != 0
    case Bool(b) => b
    case Null => false
    case List(_) => true
  }

  function Digit(d: nat): char
    requires d < 10
  {
    "0123456789"[d]
  }

  /** The decimal form of a natural number, without leading zeros. */
  function NatString(n: nat): (r: string)
    ensures |r| >= 1
    ensures r[0] == '0' ==> n == 0
  {
    if n < 10 then [Digit(n)] else NatString(n / 10) + [Digit(n % 10)]
  }

  /** `String(v)`: an array becomes its items' strings joined with `,`, where `null` items give `''`. */
  function JsString(v: Value): string
    decreases v, 1
  {
    match v
    case Str(s) => s
    case Num(n) => if n < 0 then "-" + NatString(-n) else NatString(n)
    case Bool(b) => if b then "true" else "false"
    case Null => "null"
    case List(items) => JoinItems(v, 0)
  }

  function JoinItems(v: Value, i: nat): string
    requires v.List? && i <= |v.items|
    decreases v, 0, |v.items| - i
  {
    if i == |v.items| then ""
    else
      assert v.items[i] in v.items;
      var item := if v.items[i].Null? then "" else JsString(v.items[i]);
      if i + 1 == |v.items| then item else item + "," + JoinItems(v, i + 1)
  }

  /**
   * The properties every object inherits from `Object.prototype` (section 20.1.3 and annex
   * B.2.2 of ECMAScript 2023): `obj[key]` gives a function, or `Object.prototype` itself for
   * `__proto__`, when the object has no own property of that name.
   */
  const ObjectPrototypeMembers: set<string> := {
    "constructor", "hasOwnProperty", "isPrototypeOf", "propertyIsEnumerable", "toLocaleString",
    "toString", "valueOf", "__proto__", "__defineGetter__", "__defineSetter__",
    "__lookupGetter__", "__lookupSetter__"
  }

  /** What `obj[key]` gives: an own value, an inherited member of `Object.prototype`, or `undefined`. */
  datatype Property<V> = Own(value: V) | PrototypeMember | Undefined

  /** Keys and values of an object, before the well-formedness of the pair is imposed. */
  datatype Entries<V> = Entries(keys: seq<string>, vals: map<string, V>)

  /** No key occurs twice. */
  ghost predicate DistinctKeys(s: seq<string>) {
    forall i, j :: 0 <= i < j < |s| ==> s[i] != s[j]
  }

  /** The keys name entries of the map, each once, and there are as many entries as keys. */
  ghost predicate WellFormed<V>(e: Entries<V>) {
    && DistinctKeys(e.keys)
    && |e.vals| == |e.keys|
    && forall i :: 0 <= i < |e.keys| ==> e.keys[i] in e.vals
  }

  /** An object: every own key once, in insertion order, each with its value. */
  type Record<V> = e: Entries<V> | WellFormed(e) witness Entries([], map[])

  /** A set holding `|s|` distinct elements and one more element has more than `|s|` elements. */
  lemma {:induction false} MoreThanKeys(s: seq<string>, m: set<string>, k: string)
    requires DistinctKeys(s) && forall i :: 0 <= i < |s| ==> s[i] in m
    requires k in m && k !in s
    ensures |m| > |s|
  {
    if |s| > 0 {
      var last := s[|s| - 1];
      var init := s[..|s| - 1];
      var rest := m - {last};
      assert m == rest + {last};
      assert forall i :: 0 <= i < |init| ==> init[i] in rest by {
        forall i | 0 <= i < |init| ensures init[i] in rest {
          assert init[i] == s[i] && s[i] != s[|s| - 1];
        }
      }
      assert k !in init by {
        assert forall x :: x in init ==> x in s;
      }
      MoreThanKeys(init, rest, k);
    }
  }

  /** A key is in the key order exactly when it has a value. */
  lemma KeysOf<V>(r: Record<V>)
    ensures forall k :: k in r.vals <==> k in r.keys
  {
    forall k | k in r.vals ensures k in r.keys {
      if k !in r.keys {
        MoreThanKeys(r.keys, r.vals.Keys, k);
      }
    }
  }

  /** Growing a prefix by one element adds that element to its multiset. */
  lemma PrefixMultiset(s: seq<string>, n: nat)
    requires 0 < n <= |s|
    ensures multiset(s[..n]) == multiset(s[..n - 1]) + multiset{s[n - 1]}
  {
    assert s[..n] == s[..n - 1] + [s[n - 1]];
  }

  /** In a sequence of distinct keys, a key occurs at most once among the first `n`. */
  lemma {:induction false} DistinctCount(s: seq<string>, n: nat, k: string)
    requires DistinctKeys(s) && n <= |s|
    ensures multiset(s[..n])[k] == if k in s[..n] then 1 else 0
  {
    if n > 0 {
      DistinctCount(s, n - 1, k);
      assert s[..n] == s[..n - 1] + [s[n - 1]];
      if s[n - 1] == k {
        assert k !in s[..n - 1];
      }
    }
  }

  function Empty<V>(): Record<V> {
    Entries([], map[])
  }

  /** `r[k]`: the own property first, then the prototype chain. */
  function Get<V>(r: Record<V>, k: string): (p: Property<V>)
    ensures p.Own? <==> k in r.vals
    ensures p.PrototypeMember? <==> k !in r.vals && k in ObjectPrototypeMembers
  {
    if k in r.vals then Own(r.vals[k])
    else if k in ObjectPrototypeMembers then PrototypeMember
    else Undefined
  }

  /** `r[k] = v`: a new key goes last, an existing key keeps its place. */
  function Set<V>(r: Record<V>, k: string, v: V): (r': Record<V>)
    ensures r'.vals == r.vals[k := v]
    ensures r'.keys == if k in r.vals then r.keys else r.keys + [k]
  {
    if k in r.vals then Entries(r.keys, r.vals[k := v])
    else Entries(r.keys + [k], r.vals[k := v])
  }

  /** `Object.assign(r, extra)` when no key of `extra` is already in `r`: the new keys follow the old ones. */
  function Extend<V>(r: Record<V>, extra: Record<V>): (r': Record<V>)
    requires forall k :: k in extra.vals ==> k !in r.vals
    ensures r'.keys == r.keys + extra.keys
    ensures forall k :: k in r'.vals <==> k in r.vals || k in extra.vals
    ensures forall k :: k in r.vals ==> r'.vals[k] == r.vals[k]
    ensures forall k :: k in extra.vals ==> r'.vals[k] == extra.vals[k]
  {
    var keys := r.keys + extra.keys;
    var vals := r.vals + extra.vals;
    assert vals.Keys == r.vals.Keys + extra.vals.Keys;
    assert r.vals.Keys * extra.vals.Keys == {};
    assert |vals| == |keys|;
    assert DistinctKeys(keys) by {
      forall i, j | 0 <= i < j < |keys| ensures keys[i] != keys[j] {
        if j >= |r.keys| && i < |r.keys| {
          assert keys[i] in r.vals && keys[j] in extra.vals;
        }
      }
    }
    Entries(keys, vals)
  }

  /** The keys `Extend` adds are the keys of `extra`, as many as `extra` lists. */
  lemma ExtendNewKeys<V>(r: Record<V>, extra: Record<V>)
    requires forall k :: k in extra.vals ==> k !in r.vals
    ensures |set k | k in Extend(r, extra).vals && k !in r.vals| == |extra.keys|
  {
    assert (set k | k in Extend(r, extra).vals && k !in r.vals) == extra.vals.Keys;
  }
}
