/**
 * The configuration store: the parsed YAML document and its dot-path lookup `get`,
 * plus the section accessors built on it. Reading the YAML file is left to the caller;
 * the constructor receives the document already parsed.
 */
module Configuration {
  import opened Wrappers
  import opened Strings

  /**
   * A parsed YAML value. A mapping is kept as its list of entries in document order;
   * a Python dict never holds a key twice, so looking up the first entry with a key
   * is the dict's lookup. Keys are strings; non-string YAML keys are not modelled.
   */
  datatype Value =
    | VNull
    | VBool(b: bool)
    | VNum(n: real)
    | VStr(s: string)
    | VList(items: seq<Value>)
    | VMap(entries: seq<(string, Value)>)

  const EmptyMap: Value := VMap([])

  /** `k in d` and `d[k]` for a dict `d`, as one partial lookup. */
  function Find(entries: seq<(string, Value)>, k: string): (r: Option<Value>)
    ensures r.None? <==> forall i :: 0 <= i < |entries| ==> entries[i].0 != k
    ensures r.Some? ==> exists i :: 0 <= i < |entries| && entries[i] == (k, r.value)
  {
    if entries == [] then None
    else if entries[0].0 == k then Some(entries[0].1)
    else
      var r := Find(entries[1..], k);
      assert r.Some? ==> exists i :: 1 <= i < |entries| && entries[i] == (k, r.value) by {
        if r.Some? {
          var i :| 0 <= i < |entries[1..]| && entries[1..][i] == (k, r.value);
          assert entries[i + 1] == (k, r.value);
        }
      }
      r
  }

  /** `d.get(k, default)`, or the AttributeError raised when `d` is not a dict. */
  function GetField(d: Value, k: string, default: Value): (r: Result<Value>)
    ensures r.Err? <==> !d.VMap?
    ensures d.VMap? && Find(d.entries, k).None? ==> r == Ok(default)
    ensures d.VMap? && Find(d.entries, k).Some? ==> r == Ok(Find(d.entries, k).value)
  {
    if !d.VMap? then Err("object has no attribute 'get'")
    else match Find(d.entries, k)
      case Some(x) => Ok(x)
      case None => Ok(default)
  }

  /** The value reached by following `keys` one mapping at a time, if every step exists. */
  function Reach(v: Value, keys: seq<string>): Option<Value>
  {
    if keys == [] then Some(v)
    else if v.VMap? && Find(v.entries, keys[0]).Some? then Reach(Find(v.entries, keys[0]).value, keys[1..])
    else None
  }

  /** What `Config.get(key, default)` returns for the document `doc`. */
  function Lookup(doc: Value, key: string, default: Value): Value
  {
    match Reach(doc, Split(key, '.'))
    case Some(x) => x
    case None => default
  }

  /** Following `a + b` is following `a`, then `b` from where `a` ended. */
  lemma {:induction false} ReachAppend(v: Value, a: seq<string>, b: seq<string>)
    ensures Reach(v, a + b) == match Reach(v, a) case None => None case Some(w) => Reach(w, b)
  {
    if a != [] {
      assert (a + b)[0] == a[0] && (a + b)[1..] == a[1..] + b;
      if v.VMap? && Find(v.entries, a[0]).Some? {
        ReachAppend(Find(v.entries, a[0]).value, a[1..], b);
      }
    } else {
      assert a + b == b;
    }
  }

  /** Splitting at a separator splits each side independently. */
  lemma {:induction false} SplitAround(x: string, y: string, sep: char)
    ensures Split(x + [sep] + y, sep) == Split(x, sep) + Split(y, sep)
  {
    if x == [] {
      assert x + [sep] + y == [sep] + y;
      assert ([sep] + y)[1..] == y;
    } else {
      assert (x + [sep] + y)[0] == x[0];
      assert (x + [sep] + y)[1..] == x[1..] + [sep] + y;
      SplitAround(x[1..], y, sep);
    }
  }

  /** `get("a.b")` is `get("b")` inside section `a`, and the default when `a` is absent. */
  lemma DottedKeyIsNestedLookup(doc: Value, a: string, b: string, default: Value)
    requires '.' !in a
    ensures Lookup(doc, a + "." + b, default) ==
      match Reach(doc, [a]) case None => default case Some(section) => Lookup(section, b, default)
  {
    SplitAround(a, b, '.');
    SplitWithoutSeparator(a, '.');
    ReachAppend(doc, [a], Split(b, '.'));
  }

  /** A document that is not a mapping answers every key with the default. */
  lemma NonMappingGivesDefault(doc: Value, key: string, default: Value)
    requires !doc.VMap?
    ensures Lookup(doc, key, default) == default
  {
    assert Split(key, '.') != [];
  }

  /** A key that is present with the value None gives None, not the default. */
  lemma StoredNullIsReturned(doc: Value, key: string, default: Value)
    requires '.' !in key
    requires doc.VMap? && Find(doc.entries, key) == Some(VNull)
    ensures Lookup(doc, key, default) == VNull
  {
    SplitWithoutSeparator(key, '.');
    assert [key][1..] == [];
    assert Reach(VNull, []) == Some(VNull);
  }

  /** A key without dots looks up one entry of the document itself. */
  lemma PlainKeyLookup(doc: Value, key: string, default: Value)
    requires '.' !in key
    ensures Lookup(doc, key, default) ==
      if doc.VMap? && Find(doc.entries, key).Some? then Find(doc.entries, key).value else default
  {
    SplitWithoutSeparator(key, '.');
    assert [key][1..] == [];
    if doc.VMap? && Find(doc.entries, key).Some? {
      assert Reach(Find(doc.entries, key).value, []) == Some(Find(doc.entries, key).value);
    }
  }

  /** A top-level section of the document, or an empty mapping when there is none. */
  function SectionOrEmpty(doc: Value, name: string): (r: Value)
  {
    if doc.VMap? && Find(doc.entries, name).Some? then Find(doc.entries, name).value else EmptyMap
  }

  class Config {
    /** The parsed document (`self._config`). */
    const data: Value

    constructor(loaded: Value)
      ensures data == loaded
    {
      data := loaded;
    }

    /** `get`: walk the dot-separated segments of `key`, giving `default` at the first miss. */
    method Get(key: string, default: Value) returns (r: Value)
      ensures r == Lookup(data, key, default)
    {
      var keys := Split(key, '.');
      var value := data;
      var i := 0;
      while i < |keys|
        invariant 0 <= i <= |keys|
        invariant Reach(data, keys) == Reach(value, keys[i..])
      {
        assert keys[i..][0] == keys[i] && keys[i..][1..] == keys[i + 1..];
        if value.VMap? && Find(value.entries, keys[i]).Some? {
          value := Find(value.entries, keys[i]).value;
        } else {
          return default;
        }
        i := i + 1;
      }
      return value;
    }

    /** `get(name, {})` for a name without dots. */
    method Section(name: string) returns (r: Value)
      requires '.' !in name
      ensures r == SectionOrEmpty(data, name)
      ensures (!data.VMap? || Find(data.entries, name).None?) ==> r == EmptyMap
    {
      SplitWithoutSeparator(name, '.');
      assert [name][1..] == [];
      r := Get(name, EmptyMap);
      if data.VMap? && Find(data.entries, name).Some? {
        var section := Find(data.entries, name).value;
        assert Reach(section, []) == Some(section);
      }
    }

    method EmailConfig() returns (r: Value)
      ensures r == SectionOrEmpty(data, "email")
    {
      r := Section("email");
    }

    method BusinessUnitConfig() returns (r: Value)
      ensures r == SectionOrEmpty(data, "business_unit")
    {
      r := Section("business_unit");
    }

    method ValidationConfig() returns (r: Value)
      ensures r == SectionOrEmpty(data, "validation")
    {
      r := Section("validation");
    }

    method FileUploadConfig() returns (r: Value)
      ensures r == SectionOrEmpty(data, "file_upload")
    {
      r := Section("file_upload");
    }

    method NotificationConfig() returns (r: Value)
      ensures r == SectionOrEmpty(data, "notification")
    {
      r := Section("notification");
    }
  }
}
