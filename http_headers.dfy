/**
 * Spring's HttpHeaders as a value: an insertion-ordered multimap from header
 * names to lists of values, in which names are compared case-insensitively
 * (it is backed by a LinkedCaseInsensitiveMap). A header keeps the spelling
 * of the name it was first stored under.
 */
module HttpHeaders {
  import opened Wrappers
  import opened JavaStrings

  datatype Header = Header(name: string, values: seq<string>)

  type Headers = seq<Header>

  /** The form in which names are compared. */
  function Key(name: string): string {
    Lower(name)
  }

  /** No two entries share a name up to case: what the backing map guarantees. */
  predicate WellFormed(h: Headers) {
    forall i, j :: 0 <= i < j < |h| ==> Key(h[i].name) != Key(h[j].name)
  }

  /** Position of the entry stored under `name`, or -1. */
  function Find(h: Headers, name: string): (r: int)
    ensures -1 <= r < |h|
    ensures r >= 0 ==> Key(h[r].name) == Key(name)
    ensures r >= 0 ==> forall k :: 0 <= k < r ==> Key(h[k].name) != Key(name)
    ensures r < 0 <==> forall k :: 0 <= k < |h| ==> Key(h[k].name) != Key(name)
    decreases |h|
  {
    if h == [] then -1
    else if Key(h[0].name) == Key(name) then 0
    else
      var k := Find(h[1..], name);
      if k < 0 then -1 else k + 1
  }

  /** `containsKey(name)` */
  predicate ContainsKey(h: Headers, name: string) {
    Find(h, name) >= 0
  }

  /** `get(name)`; None stands for null. */
  function Get(h: Headers, name: string): Option<seq<string>> {
    var i := Find(h, name);
    if i < 0 then None else Some(h[i].values)
  }

  /** `getFirst(name)` */
  function GetFirst(h: Headers, name: string): Option<string> {
    match Get(h, name)
    case Some(vs) => if vs == [] then None else Some(vs[0])
    case None => None
  }

  /** `add(name, value)`: appends to the entry's list, or creates the entry at the end. */
  function Add(h: Headers, name: string, value: string): Headers {
    var i := Find(h, name);
    if i < 0 then h + [Header(name, [value])]
    else h[i := Header(h[i].name, h[i].values + [value])]
  }

  /**
   * `put(name, values)` as LinkedCaseInsensitiveMap does it: an entry under the
   * very same spelling is replaced in place; one under another spelling is
   * removed and the new entry appended; otherwise the entry is appended.
   */
  function Put(h: Headers, name: string, values: seq<string>): Headers {
    var i := Find(h, name);
    if i < 0 then h + [Header(name, values)]
    else if h[i].name == name then h[i := Header(name, values)]
    else h[..i] + h[i + 1..] + [Header(name, values)]
  }

  /** `set(name, value)`: the entry then holds exactly one value. */
  function Set(h: Headers, name: string, value: string): Headers {
    Put(h, name, [value])
  }

  /** `remove(name)` */
  function Remove(h: Headers, name: string): Headers {
    var i := Find(h, name);
    if i < 0 then h else h[..i] + h[i + 1..]
  }

  /** `setContentType(type)` */
  function SetContentType(h: Headers, mediaType: string): Headers {
    Set(h, "Content-Type", mediaType)
  }

  /** `setContentLength(n)` */
  function SetContentLength(h: Headers, n: nat): Headers {
    Set(h, "Content-Length", NatToString(n))
  }

  /**
   * Whether `getContentType()` is non-null: a first Content-Type value that is
   * not empty (parsing of the media type is not modelled).
   */
  predicate HasContentType(h: Headers) {
    var v := GetFirst(h, "Content-Type");
    v.Some? && v.value != ""
  }

  lemma GetAt(h: Headers, i: int, m: string)
    requires WellFormed(h) && 0 <= i < |h| && Key(h[i].name) == Key(m)
    ensures Get(h, m) == Some(h[i].values)
  {
  }

  lemma GetNone(h: Headers, m: string)
    requires forall k :: 0 <= k < |h| ==> Key(h[k].name) != Key(m)
    ensures Get(h, m) == None
  {
  }

  /** What `Get` sees of a well-formed multimap, stated without Find. */
  lemma GetCases(h: Headers, m: string)
    requires WellFormed(h)
    ensures Get(h, m).Some? <==> exists i :: 0 <= i < |h| && Key(h[i].name) == Key(m)
    ensures forall i :: 0 <= i < |h| && Key(h[i].name) == Key(m) ==> Get(h, m) == Some(h[i].values)
  {
  }

  lemma AddWellFormed(h: Headers, name: string, value: string)
    requires WellFormed(h)
    ensures WellFormed(Add(h, name, value))
  {
  }

  lemma AddGet(h: Headers, name: string, value: string, m: string)
    requires WellFormed(h)
    ensures Get(Add(h, name, value), m) ==
              if Key(m) == Key(name) then Some(Get(h, name).GetOr([]) + [value]) else Get(h, m)
  {
    AddWellFormed(h, name, value);
    var r := Add(h, name, value);
    var i := Find(h, name);
    if Key(m) == Key(name) {
      if i < 0 {
        assert Get(h, name).GetOr([]) + [value] == [value];
        GetAt(r, |h|, m);
      } else {
        GetAt(r, i, m);
      }
    } else {
      var j := Find(h, m);
      if j >= 0 { GetAt(r, j, m); } else { GetNone(r, m); }
    }
  }

  lemma AppendWellFormed(h: Headers, x: Header)
    requires WellFormed(h)
    requires forall k :: 0 <= k < |h| ==> Key(h[k].name) != Key(x.name)
    ensures WellFormed(h + [x])
  {
    var r := h + [x];
    forall a, b | 0 <= a < b < |r| ensures Key(r[a].name) != Key(r[b].name) {
      assert r[a] == h[a];
      if b < |h| { assert r[b] == h[b]; }
    }
  }

  lemma PrefixWellFormed(h: Headers, n: int)
    requires WellFormed(h) && 0 <= n <= |h|
    ensures WellFormed(h[..n])
  {
  }

  lemma DeleteWellFormed(h: Headers, i: int)
    requires WellFormed(h) && 0 <= i < |h|
    ensures WellFormed(h[..i] + h[i + 1..])
    ensures forall k :: 0 <= k < |h| - 1 ==> (h[..i] + h[i + 1..])[k] == (if k < i then h[k] else h[k + 1])
  {
    var r := h[..i] + h[i + 1..];
    assert forall k :: 0 <= k < |r| ==> r[k] == (if k < i then h[k] else h[k + 1]);
    forall a, b | 0 <= a < b < |r| ensures Key(r[a].name) != Key(r[b].name) {
      var ha := if a < i then a else a + 1;
      var hb := if b < i then b else b + 1;
      assert r[a] == h[ha] && r[b] == h[hb] && ha < hb;
    }
  }

  lemma PutWellFormed(h: Headers, name: string, values: seq<string>)
    requires WellFormed(h)
    ensures WellFormed(Put(h, name, values))
  {
    var i := Find(h, name);
    var x := Header(name, values);
    if i < 0 {
      AppendWellFormed(h, x);
    } else if h[i].name == name {
      var r := h[i := x];
      forall a, b | 0 <= a < b < |r| ensures Key(r[a].name) != Key(r[b].name) {
        assert Key(r[a].name) == Key(h[a].name) && Key(r[b].name) == Key(h[b].name);
      }
    } else {
      var rest := h[..i] + h[i + 1..];
      DeleteWellFormed(h, i);
      forall k | 0 <= k < |rest| ensures Key(rest[k].name) != Key(name) {
        var hk := if k < i then k else k + 1;
        assert rest[k] == h[hk] && hk != i;
      }
      AppendWellFormed(rest, x);
    }
  }

  lemma PutGet(h: Headers, name: string, values: seq<string>, m: string)
    requires WellFormed(h)
    ensures Get(Put(h, name, values), m) == if Key(m) == Key(name) then Some(values) else Get(h, m)
  {
    PutWellFormed(h, name, values);
    var i := Find(h, name);
    if i < 0 {
      PutGetAppended(h, h, Header(name, values), m);
    } else if h[i].name == name {
      PutGetInPlace(h, i, Header(name, values), m);
    } else {
      PutGetMoved(h, i, Header(name, values), m);
    }
  }

  /** Lookup in `rest + [x]` when rest reads like h for every other name. */
  lemma PutGetAppended(h: Headers, rest: Headers, x: Header, m: string)
    requires WellFormed(rest + [x])
    requires Key(m) != Key(x.name) ==> Get(rest, m) == Get(h, m)
    ensures Get(rest + [x], m) == if Key(m) == Key(x.name) then Some(x.values) else Get(h, m)
  {
    var r := rest + [x];
    if Key(m) == Key(x.name) {
      GetAt(r, |r| - 1, m);
    } else {
      var j := Find(rest, m);
      if j < 0 {
        GetNone(r, m);
      } else {
        assert r[j] == rest[j];
        GetAt(r, j, m);
      }
    }
  }

  lemma PutGetInPlace(h: Headers, i: int, x: Header, m: string)
    requires WellFormed(h) && 0 <= i < |h| && Key(h[i].name) == Key(x.name)
    requires WellFormed(h[i := x])
    ensures Get(h[i := x], m) == if Key(m) == Key(x.name) then Some(x.values) else Get(h, m)
  {
    var r := h[i := x];
    if Key(m) == Key(x.name) {
      GetAt(r, i, m);
    } else {
      var j := Find(h, m);
      if j < 0 {
        GetNone(r, m);
      } else {
        GetAt(r, j, m);
      }
    }
  }

  lemma PutGetMoved(h: Headers, i: int, x: Header, m: string)
    requires WellFormed(h) && 0 <= i < |h| && Key(h[i].name) == Key(x.name)
    requires WellFormed(h[..i] + h[i + 1..] + [x])
    ensures Get(h[..i] + h[i + 1..] + [x], m) == if Key(m) == Key(x.name) then Some(x.values) else Get(h, m)
  {
    var rest := h[..i] + h[i + 1..];
    DeleteWellFormed(h, i);
    if Key(m) != Key(x.name) {
      RemoveGet(h, h[i].name, m);
      assert Find(h, h[i].name) == i;
      assert Remove(h, h[i].name) == rest;
    }
    PutGetAppended(h, rest, x, m);
  }

  lemma RemoveWellFormed(h: Headers, name: string)
    requires WellFormed(h)
    ensures WellFormed(Remove(h, name))
  {
    var i := Find(h, name);
    if i >= 0 {
      var r := Remove(h, name);
      assert forall k :: 0 <= k < |r| ==> r[k] == (if k < i then h[k] else h[k + 1]);
    }
  }

  lemma RemoveGet(h: Headers, name: string, m: string)
    requires WellFormed(h)
    ensures Get(Remove(h, name), m) == if Key(m) == Key(name) then None else Get(h, m)
  {
    RemoveWellFormed(h, name);
    var r := Remove(h, name);
    var i := Find(h, name);
    if i >= 0 {
      assert forall k :: 0 <= k < |r| ==> r[k] == (if k < i then h[k] else h[k + 1]);
    }
    var j := Find(h, m);
    if Key(m) == Key(name) || j < 0 {
      GetNone(r, m);
    } else if i < 0 || j < i {
      GetAt(r, j, m);
    } else {
      GetAt(r, j - 1, m);
    }
  }
  /** Past a first entry under another name, lookup goes on in the rest. */
  lemma WellFormedTail(h: Headers)
    requires WellFormed(h) && h != []
    ensures WellFormed(h[1..])
  {
    forall a, b | 0 <= a < b < |h[1..]| ensures Key(h[1..][a].name) != Key(h[1..][b].name) {
      assert h[1..][a] == h[a + 1] && h[1..][b] == h[b + 1];
    }
  }

  /** Lookups only see the name up to case. */
  lemma GetSameKey(h: Headers, a: string, b: string)
    requires Key(a) == Key(b)
    ensures Get(h, a) == Get(h, b)
  {
    var i, j := Find(h, a), Find(h, b);
    if i >= 0 && j >= 0 {
      assert !(i < j) && !(j < i);
    }
  }

  lemma GetTail(h: Headers, m: string)
    requires h != [] && Key(h[0].name) != Key(m)
    ensures Get(h, m) == Get(h[1..], m)
  {
  }

  /** A name `Get` does not find is on no entry. */
  lemma GetNoneAll(h: Headers, m: string)
    requires Get(h, m).None?
    ensures forall k :: 0 <= k < |h| ==> Key(h[k].name) != Key(m)
  {
  }
}
