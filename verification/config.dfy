/**
 * The command line's configuration: the YAML document after `${NAME}`
 * references to environment variables are expanded, and the lookup of a
 * dotted setting such as `exploitation.enabled` in it.
 *
 * A document is a tree of values. Mappings keep their entries in order
 * and have string keys. The environment is a map from names to values.
 */
module Config {
  import opened Common

  datatype Value =
    | Null
    | Bool(b: bool)
    | Int(i: int)
    | Str(s: string)
    | List(items: seq<Value>)
    | Dict(entries: seq<Entry>)

  datatype Entry = Entry(key: string, value: Value)

  const EMPTY: Value := Dict([])

  function Keys(es: seq<Entry>): (ks: seq<string>)
    ensures |ks| == |es| && forall i :: 0 <= i < |es| ==> ks[i] == es[i].key
  {
    seq(|es|, i requires 0 <= i < |es| => es[i].key)
  }

  /** `dict.get(key)`: the value of the first entry with that key. */
  function Get(es: seq<Entry>, key: string): (r: Option<Value>)
    ensures r.None? <==> key !in Keys(es)
    ensures r.Some? ==> exists i :: 0 <= i < |es| && es[i] == Entry(key, r.value)
  {
    if es == [] then None
    else if es[0].key == key then Some(es[0].value)
    else Get(es[1..], key)
  }

  // ---------------------------------------------------------------------
  // Expansion of environment references

  /**
   * The variable named by a string that starts with "${" and ends with
   * "}": the text between them, which may be empty.
   */
  function Reference(s: string): (name: Option<string>)
    ensures name.Some? ==> |s| >= 3 && s == "${" + name.value + "}"
    ensures name.None? ==> |s| < 2 || s[..2] != "${" || s[|s| - 1] != '}'
  {
    if |s| >= 2 && s[..2] == "${" && s[|s| - 1] == '}' then Some(s[2..|s| - 1]) else None
  }

  /**
   * expand_env_vars: mappings are rebuilt with the same keys in the same
   * order and expanded values; a reference to a set variable becomes its
   * value, a reference to an unset one stays as written; everything else,
   * lists included, is returned untouched.
   */
  function Expand(v: Value, env: map<string, string>): (r: Value)
    ensures v.Dict? <==> r.Dict?
    ensures v.Dict? ==> Keys(r.entries) == Keys(v.entries)
    ensures !v.Dict? && !v.Str? ==> r == v
    ensures v.Str? ==> r.Str?
  {
    match v
    case Dict(es) => Dict(seq(|es|, i requires 0 <= i < |es| => Entry(es[i].key, Expand(es[i].value, env))))
    case Str(s) =>
      var name := Reference(s);
      if name.Some? && name.value in env then Str(env[name.value]) else v
    case _ => v
  }

  /** A string is replaced exactly when it references a variable that is set. */
  lemma ExpandString(s: string, env: map<string, string>)
    ensures Expand(Str(s), env) != Str(s) ==> Reference(s).Some? && Reference(s).value in env
    ensures Reference(s).Some? && Reference(s).value in env ==> Expand(Str(s), env) == Str(env[Reference(s).value])
  {
  }

  /** Looking a key up after expansion gives the expansion of what it looked up before. */
  lemma {:induction false} ExpandGet(es: seq<Entry>, key: string, env: map<string, string>)
    ensures Get(Expand(Dict(es), env).entries, key) == if Get(es, key).Some? then Some(Expand(Get(es, key).value, env)) else None
  {
    if es != [] {
      var xs := Expand(Dict(es), env).entries;
      var ys := Expand(Dict(es[1..]), env).entries;
      forall k | 0 <= k < |ys| ensures ys[k] == xs[k + 1] {
        assert es[1..][k] == es[k + 1];
      }
      assert ys == xs[1..];
      ExpandGet(es[1..], key, env);
    }
  }

  /** With no environment variables set, expansion changes nothing. */
  lemma {:induction false} ExpandEmptyEnv(v: Value)
    ensures Expand(v, map[]) == v
  {
    match v
    case Dict(es) =>
      forall i | 0 <= i < |es| ensures Expand(es[i].value, map[]) == es[i].value {
        ExpandEmptyEnv(es[i].value);
      }
      assert Expand(v, map[]).entries == es;
    case _ =>
  }

  /** No value of the environment is itself a reference. */
  predicate PlainEnv(env: map<string, string>)
  {
    forall name :: name in env ==> Reference(env[name]).None?
  }

  /** When no variable's value is a reference, expanding twice is expanding once. */
  lemma {:induction false} ExpandIdempotent(v: Value, env: map<string, string>)
    requires PlainEnv(env)
    ensures Expand(Expand(v, env), env) == Expand(v, env)
  {
    match v
    case Dict(es) =>
      forall i | 0 <= i < |es| ensures Expand(Expand(es[i].value, env), env) == Expand(es[i].value, env) {
        ExpandIdempotent(es[i].value, env);
      }
      assert Expand(Expand(v, env), env).entries == Expand(v, env).entries;
    case _ =>
  }

  /**
   * load_config after the file is found and read: None is a missing file,
   * which gives an empty configuration.
   */
  function Load(document: Option<Value>, env: map<string, string>): (r: Value)
    ensures document.None? ==> r == EMPTY
    ensures document.Some? && document.value.Dict? ==> r.Dict? && Keys(r.entries) == Keys(document.value.entries)
  {
    if document.None? then EMPTY else Expand(document.value, env)
  }

  // ---------------------------------------------------------------------
  // Dotted settings

  /** `str.split(sep)`: the pieces between the separators, at least one. */
  function Split(s: string, sep: char): (parts: seq<string>)
    ensures |parts| >= 1
    ensures forall p :: p in parts ==> sep !in p
    decreases |s|
  {
    var i := IndexOf(s, sep);
    if i == |s| then [s] else [s[..i]] + Split(s[i + 1..], sep)
  }

  /** `sep.join(parts)`. */
  function Join(parts: seq<string>, sep: char): string
    requires |parts| >= 1
  {
    if |parts| == 1 then parts[0] else parts[0] + [sep] + Join(parts[1..], sep)
  }

  /** Joining the pieces gives the string back. */
  lemma {:induction false} JoinSplit(s: string, sep: char)
    ensures Join(Split(s, sep), sep) == s
    decreases |s|
  {
    var i := IndexOf(s, sep);
    if i < |s| {
      var rest := s[i + 1..];
      SplitCons(s, sep);
      JoinSplit(rest, sep);
      JoinCons(s[..i], Split(rest, sep), sep);
      assert s == s[..i] + [sep] + rest;
    } else {
      assert Split(s, sep) == [s];
    }
  }

  lemma SplitCons(s: string, sep: char)
    requires IndexOf(s, sep) < |s|
    ensures Split(s, sep) == [s[..IndexOf(s, sep)]] + Split(s[IndexOf(s, sep) + 1..], sep)
  {
  }

  lemma JoinCons(p: string, parts: seq<string>, sep: char)
    requires |parts| >= 1
    ensures Join([p] + parts, sep) == p + [sep] + Join(parts, sep)
  {
    assert ([p] + parts)[1..] == parts;
  }

  /** Splitting a join of separator-free pieces gives the pieces back. */
  lemma {:induction false} SplitJoin(parts: seq<string>, sep: char)
    requires |parts| >= 1 && forall p :: p in parts ==> sep !in p
    ensures Split(Join(parts, sep), sep) == parts
  {
    if |parts| > 1 {
      assert parts[0] in parts;
      SplitHead(parts[0], sep, Join(parts[1..], sep));
      SplitJoin(parts[1..], sep);
      assert [parts[0]] + parts[1..] == parts;
    } else {
      IndexOfAbsent(parts[0], sep);
    }
  }

  /** A separator-free piece, a separator, then anything: the piece comes off first. */
  lemma SplitHead(p: string, sep: char, rest: string)
    requires sep !in p
    ensures Split(p + [sep] + rest, sep) == [p] + Split(rest, sep)
  {
    var s := p + [sep] + rest;
    forall k | 0 <= k < |p| ensures s[k] != sep {
      assert s[k] == p[k];
    }
    IndexOfAt(s, sep, |p|);
    assert s[..|p|] == p && s[|p| + 1..] == rest;
  }

  /** The outcome of the lookup: a value, or the AttributeError of `.get` on a non-mapping at key `at`. */
  datatype Lookup = Found(value: Value) | NoGet(at: nat)

  /**
   * The lookup of keys from the n-th on, starting at v: each key steps into
   * its entry, or into an empty mapping when the key is missing.
   */
  function Resolve(v: Value, keys: seq<string>, n: nat): (r: Lookup)
    ensures r.NoGet? ==> n <= r.at < n + |keys|
    ensures keys == [] ==> r == Found(v)
    ensures keys != [] && !v.Dict? ==> r == NoGet(n)
    decreases keys
  {
    if keys == [] then Found(v)
    else if !v.Dict? then NoGet(n)
    else
      var next := Get(v.entries, keys[0]);
      Resolve(if next.Some? then next.value else EMPTY, keys[1..], n + 1)
  }

  /** Below a missing key every further key is missing too: the result is the empty mapping. */
  lemma {:induction false} ResolveEmpty(keys: seq<string>, n: nat)
    ensures Resolve(EMPTY, keys, n) == Found(EMPTY)
  {
    if keys != [] {
      ResolveEmpty(keys[1..], n + 1);
    }
  }

  /** A path looked up in two parts: the first part, then the second from where it ended. */
  lemma {:induction false} ResolveConcat(v: Value, a: seq<string>, b: seq<string>, n: nat)
    ensures Resolve(v, a + b, n) == match Resolve(v, a, n) case Found(w) => Resolve(w, b, n + |a|) case NoGet(at) => NoGet(at)
    decreases a
  {
    if a == [] {
      assert a + b == b;
    } else if v.Dict? {
      var next := Get(v.entries, a[0]);
      var w := if next.Some? then next.value else EMPTY;
      assert (a + b)[0] == a[0] && (a + b)[1..] == a[1..] + b;
      assert Resolve(v, a + b, n) == Resolve(w, a[1..] + b, n + 1);
      assert Resolve(v, a, n) == Resolve(w, a[1..], n + 1);
      ResolveConcat(w, a[1..], b, n + 1);
    }
  }

  /** A setting whose first key is missing shows the empty mapping, whatever follows. */
  lemma MissingKeyShowsEmpty(es: seq<Entry>, keys: seq<string>, n: nat)
    requires keys != [] && keys[0] !in Keys(es)
    ensures Resolve(Dict(es), keys, n) == Found(EMPTY)
  {
    ResolveEmpty(keys[1..], n + 1);
  }

  /**
   * The display of one setting: the setting split at its dots, and a walk
   * from the top of the configuration, one key at a time.
   */
  method LookupSetting(config: Value, setting: string) returns (r: Lookup)
    ensures r == Resolve(config, Split(setting, '.'), 0)
    ensures r.NoGet? ==> r.at < |Split(setting, '.')|
  {
    var keys := Split(setting, '.');
    var current := config;
    var i := 0;
    while i < |keys|
      invariant 0 <= i <= |keys|
      invariant Resolve(current, keys[i..], i) == Resolve(config, keys, 0)
    {
      assert keys[i..][1..] == keys[i + 1..];
      if !current.Dict? {
        return NoGet(i);
      }
      var next := Get(current.entries, keys[i]);
      current := if next.Some? then next.value else EMPTY;
      i := i + 1;
    }
    return Found(current);
  }
}
