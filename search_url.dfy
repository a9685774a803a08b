/**
 * buildUrl: the search page address built from the caller's parameter object.
 * A non-empty `categoria` becomes the path segment and is deleted from the
 * caller's object; otherwise the segment is "motor/". Every key left in the
 * object becomes a query parameter, in key order.
 */
module SearchUrl {
  import opened JsText

  const BaseUrl: string := "https://www.milanuncios.com/"
  const CategoryKey: string := "categoria"
  const DefaultCategory: string := "motor"

  function Keys(entries: seq<(string, string)>): (r: seq<string>)
    ensures |r| == |entries| && forall i :: 0 <= i < |entries| ==> r[i] == entries[i].0
  {
    if entries == [] then [] else [entries[0].0] + Keys(entries[1..])
  }

  /** No key occurs twice: the entries of a JavaScript object. */
  predicate DistinctKeys(entries: seq<(string, string)>) {
    entries == [] || (entries[0].0 !in Keys(entries[1..]) && DistinctKeys(entries[1..]))
  }

  /** params[key], None when the key is absent. */
  function Lookup(entries: seq<(string, string)>, key: string): (r: Option<string>)
    ensures r.None? <==> key !in Keys(entries)
    ensures r.Some? ==> (key, r.value) in entries
  {
    if entries == [] then None
    else if entries[0].0 == key then Some(entries[0].1)
    else Lookup(entries[1..], key)
  }

  /** The entries without `key`, the others in their order: `delete params[key]`. */
  function Remove(entries: seq<(string, string)>, key: string): (r: seq<(string, string)>)
    ensures key !in Keys(r)
    ensures forall e :: e in r <==> e in entries && e.0 != key
    ensures forall k :: k in Keys(r) ==> k in Keys(entries)
    ensures key !in Keys(entries) ==> r == entries
    ensures DistinctKeys(entries) ==> DistinctKeys(r)
    ensures |entries| == 1 ==> r == if entries[0].0 == key then [] else entries
  {
    if entries == [] then []
    else
      var rest := Remove(entries[1..], key);
      if entries[0].0 == key then rest
      else
        var r := [entries[0]] + rest;
        assert r[1..] == rest;
        assert Keys(r) == [entries[0].0] + Keys(rest);
        assert Keys(entries) == [entries[0].0] + Keys(entries[1..]);
        r
  }

  /** One step of Remove: the first entry goes unless it has the key. */
  lemma RemoveCons(entries: seq<(string, string)>, key: string)
    requires entries != []
    ensures Remove(entries, key) == (if entries[0].0 == key then [] else [entries[0]]) + Remove(entries[1..], key)
  {
  }

  /** Removing a key from two runs of entries removes it from each run, and
      the survivors keep their order. */
  lemma {:induction false} RemoveAppend(a: seq<(string, string)>, b: seq<(string, string)>, key: string)
    ensures Remove(a + b, key) == Remove(a, key) + Remove(b, key)
  {
    if a == [] {
      assert a + b == b;
    } else {
      var c := a + b;
      assert c[0] == a[0] && c[1..] == a[1..] + b;
      var head := if a[0].0 == key then [] else [a[0]];
      var x, y := Remove(a[1..], key), Remove(b, key);
      calc {
        Remove(c, key);
      ==  { RemoveCons(c, key); }
        head + Remove(a[1..] + b, key);
      ==  { RemoveAppend(a[1..], b, key); }
        head + (x + y);
      ==  { Regroup(head, x, y); }
        (head + x) + y;
      ==  { RemoveCons(a, key); }
        Remove(a, key) + y;
      }
    }
  }

  /** The caller's parameter object, which buildUrl updates in place. */
  class Params {
    var entries: seq<(string, string)>

    ghost predicate Valid()
      reads this
    {
      DistinctKeys(entries)
    }

    constructor (entries: seq<(string, string)>)
      requires DistinctKeys(entries)
      ensures this.entries == entries && Valid()
    {
      this.entries := entries;
    }

    /** The truthy test on params.categoria: present and not the empty string. */
    function CategoryParam(): (r: Option<string>)
      reads this
      ensures r.Some? <==> Lookup(entries, CategoryKey).Some? && Lookup(entries, CategoryKey).value != []
      ensures r.Some? ==> r == Lookup(entries, CategoryKey)
    {
      Category(entries)
    }

    /** Deletes the key from the caller's parameter object. */
    method Delete(key: string)
      requires Valid()
      modifies this
      ensures Valid()
      ensures entries == Remove(old(entries), key)
    {
      entries := Remove(entries, key);
    }
  }

  /** The search address before serialisation: the path of the page and the
      query parameters in order. */
  datatype SearchTarget = SearchTarget(path: string, query: seq<(string, string)>)

  /** The truthy test on params.categoria: the category when present and not empty. */
  function Category(entries: seq<(string, string)>): (r: Option<string>)
    ensures r.Some? <==> Lookup(entries, CategoryKey).Some? && Lookup(entries, CategoryKey).value != []
    ensures r.Some? ==> r == Lookup(entries, CategoryKey)
  {
    match Lookup(entries, CategoryKey)
    case Some(c) => if c != [] then Some(c) else None
    case None => None
  }

  /** The address buildUrl builds from the parameter entries. */
  function TargetOf(entries: seq<(string, string)>): (t: SearchTarget)
    ensures StartsWith(t.path, BaseUrl) && t.path[|t.path| - 1] == '/'
    ensures Category(entries).Some? ==> t.path == BaseUrl + Category(entries).value + "/" && CategoryKey !in Keys(t.query)
    ensures Category(entries).None? ==> t.path == BaseUrl + DefaultCategory + "/" && t.query == entries
    ensures Category(entries).Some? ==> t.query == Remove(entries, CategoryKey)
    ensures forall e :: e in entries && e.0 != CategoryKey ==> e in t.query
    ensures forall e :: e in t.query ==> e in entries
  {
    var category := Category(entries);
    var segment := if category.Some? then category.value else DefaultCategory;
    var path := BaseUrl + segment + "/";
    assert path[..|BaseUrl|] == BaseUrl;
    SearchTarget(path, if category.Some? then Remove(entries, CategoryKey) else entries)
  }

  /** An empty categoria is not truthy: the path falls back to "motor/" and the
      empty categoria stays among the query parameters. */
  lemma EmptyCategoryStaysInQuery(entries: seq<(string, string)>)
    requires Lookup(entries, CategoryKey) == Some("")
    ensures TargetOf(entries).path == BaseUrl + DefaultCategory + "/"
    ensures (CategoryKey, "") in TargetOf(entries).query
  {
  }

  /** The category never appears both as path segment and as query parameter. */
  lemma CategoryNotDuplicated(entries: seq<(string, string)>)
    ensures TargetOf(entries).path != BaseUrl + DefaultCategory + "/" ==>
      CategoryKey !in Keys(TargetOf(entries).query)
  {
  }

  /** buildUrl(params): the address; a truthy categoria is deleted from the caller's object. */
  method BuildUrl(params: Params) returns (target: SearchTarget)
    requires params.Valid()
    modifies params
    ensures params.Valid()
    ensures target == TargetOf(old(params.entries))
    ensures params.entries ==
      if old(params.CategoryParam()).Some? then Remove(old(params.entries), CategoryKey) else old(params.entries)
  {
    var path := BaseUrl;
    var category := params.CategoryParam();
    if category.Some? {
      path := path + category.value + "/";
      params.Delete(CategoryKey);
    } else {
      path := path + DefaultCategory + "/";
    }
    var query := AppendAll([], params.entries);
    assert [] + params.entries == params.entries;
    target := SearchTarget(path, query);
  }

  /** Each remaining parameter appended to the search parameters, one at a time,
      in the order of the keys. */
  method AppendAll(searchParams: seq<(string, string)>, entries: seq<(string, string)>)
    returns (appended: seq<(string, string)>)
    ensures appended == searchParams + entries
  {
    appended := searchParams;
    for i := 0 to |entries|
      invariant appended == searchParams + entries[..i]
    {
      assert entries[..i + 1] == entries[..i] + [entries[i]];
      appended := appended + [entries[i]];
    }
    assert entries[..|entries|] == entries;
  }

  /** One query parameter as url.searchParams serialises it, with the
      form-encoding of names and values given as `encode`. */
  function Pair(e: (string, string), encode: string -> string): string {
    encode(e.0) + "=" + encode(e.1)
  }

  /** Every parameter serialised, in order. */
  function Pairs(query: seq<(string, string)>, encode: string -> string): (r: seq<string>)
    ensures |r| == |query|
    ensures forall i :: 0 <= i < |query| ==> r[i] == Pair(query[i], encode)
  {
    seq(|query|, i requires 0 <= i < |query| => Pair(query[i], encode))
  }

  /** The serialised parameters, one after another, separated by '&'. */
  function QueryString(query: seq<(string, string)>, encode: string -> string): (r: string)
    ensures r == Join(Pairs(query, encode), '&')
  {
    if query == [] then []
    else if |query| == 1 then Pair(query[0], encode)
    else
      var pairs := Pairs(query, encode);
      assert pairs[1..] == Pairs(query[1..], encode);
      Pair(query[0], encode) + "&" + QueryString(query[1..], encode)
  }

  /** url.toString(): the path, then "?" and the parameters when there are any. */
  function Href(t: SearchTarget, encode: string -> string): (r: string)
    ensures StartsWith(r, t.path)
    ensures t.query == [] ==> r == t.path
    ensures t.query != [] ==> r == t.path + "?" + Join(Pairs(t.query, encode), '&')
  {
    if t.query == [] then t.path else t.path + "?" + QueryString(t.query, encode)
  }

  /** Without categoria the search lands in the motor section, the other
      parameters in the query string. */
  lemma MotorByDefault(encode: string -> string)
    requires encode("marca") == "marca" && encode("fiat") == "fiat"
    ensures Href(TargetOf([("marca", "fiat")]), encode) == "https://www.milanuncios.com/motor/?marca=fiat"
  {
    var entries := [("marca", "fiat")];
    assert Lookup(entries, CategoryKey) == None;
    var t := TargetOf(entries);
    assert t == SearchTarget(BaseUrl + DefaultCategory + "/", entries);
    assert QueryString(entries, encode) == Pair(("marca", "fiat"), encode);
  }

  /** A categoria becomes the path segment and leaves the query string. */
  lemma CategoryInPath(encode: string -> string)
    requires encode("marca") == "marca" && encode("fiat") == "fiat"
    ensures Href(TargetOf([("categoria", "coches"), ("marca", "fiat")]), encode)
      == "https://www.milanuncios.com/coches/?marca=fiat"
  {
    var rest := [("marca", "fiat")];
    var t := SearchTarget("https://www.milanuncios.com/coches/", rest);
    CategoryTarget();
    assert QueryString(rest, encode) == Pair(("marca", "fiat"), encode);
    assert Href(t, encode) == t.path + "?" + "marca=fiat";
  }

  /** The target of the categoria example: the category as path, the rest as query. */
  lemma CategoryTarget()
    ensures TargetOf([("categoria", "coches"), ("marca", "fiat")])
      == SearchTarget("https://www.milanuncios.com/coches/", [("marca", "fiat")])
  {
    var entries := [("categoria", "coches"), ("marca", "fiat")];
    assert Lookup(entries, CategoryKey) == Some("coches");
    var rest := [("marca", "fiat")];
    assert entries[1..] == rest;
    RemoveCons(entries, CategoryKey);
    assert Remove(rest, CategoryKey) == rest;
  }
}
