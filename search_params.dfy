/** The part of `URLSearchParams` the board uses: `get`, `delete`, `set` and
    `toString`, over a list of name/value pairs. Percent-encoding is not
    modelled: names and values stand for their decoded text. */
module SearchParams {
  import opened Wrappers

  type Params = seq<(string, string)>

  /** `params.get(name)`: the value of the first pair with that name, or null. */
  function Get(params: Params, name: string): (r: Option<string>)
    ensures r.None? <==> forall i :: 0 <= i < |params| ==> params[i].0 != name
    ensures r.Some? ==> exists i :: && 0 <= i < |params| && params[i] == (name, r.value)
                                   && forall j :: 0 <= j < i ==> params[j].0 != name
  {
    if params == [] then None
    else if params[0].0 == name then Some(params[0].1)
    else
      var r := Get(params[1..], name);
      if r.Some? then
        var i :| && 0 <= i < |params| - 1 && params[1..][i] == (name, r.value)
                 && forall j :: 0 <= j < i ==> params[1..][j].0 != name;
        assert params[i + 1] == (name, r.value);
        assert forall j :: 0 <= j < i + 1 ==> params[j].0 != name by {
          forall j | 0 <= j < i + 1 ensures params[j].0 != name {
            if j > 0 { assert params[j] == params[1..][j - 1]; }
          }
        }
        r
      else r
  }

  /** The position of the first pair named `name`: the pair `get` reads. */
  function FirstIndex(params: Params, name: string): (i: nat)
    requires Get(params, name).Some?
    ensures i < |params| && params[i] == (name, Get(params, name).value)
    ensures forall j :: 0 <= j < i ==> params[j].0 != name
  {
    if params[0].0 == name then 0 else 1 + FirstIndex(params[1..], name)
  }

  /** `params.delete(name)`: every pair with that name removed, the others kept in order. */
  function Delete(params: Params, name: string): (r: Params)
    ensures forall p :: p in r <==> p in params && p.0 != name
    ensures Get(r, name).None?
    ensures forall n :: n != name ==> Get(r, n) == Get(params, n)
    ensures |params| == 1 ==> r == (if params[0].0 == name then [] else params)
  {
    if params == [] then []
    else
      var rest := Delete(params[1..], name);
      assert params == [params[0]] + params[1..];
      if params[0].0 == name then rest else [params[0]] + rest
  }

  /** `params.set(name, value)`: the first pair with that name takes the value and
      the other pairs with that name go; with no such pair, one is appended. */
  function Set(params: Params, name: string, value: string): (r: Params)
    ensures Get(r, name) == Some(value)
    ensures forall n :: n != name ==> Get(r, n) == Get(params, n)
    ensures Delete(r, name) == Delete(params, name)
    ensures Get(params, name).None? ==> r == params + [(name, value)]
    ensures Get(params, name).Some? ==> r == ReplaceFirst(params, name, value)
  {
    if Get(params, name).None? then
      SetAbsentAppends(params, name, value);
      params + [(name, value)]
    else ReplaceFirst(params, name, value)
  }

  /** The first pair named `name` takes `value`; later pairs with that name go. */
  function ReplaceFirst(params: Params, name: string, value: string): (r: Params)
    requires Get(params, name).Some?
    ensures Get(r, name) == Some(value)
    ensures forall n :: n != name ==> Get(r, n) == Get(params, n)
    ensures Delete(r, name) == Delete(params, name)
    ensures var i := FirstIndex(params, name);
            r == params[..i] + [(name, value)] + Delete(params[i + 1..], name)
  {
    if params[0].0 == name then
      ReplaceAtHead(params, name, value);
      [(name, value)] + Delete(params[1..], name)
    else
      var tail := ReplaceFirst(params[1..], name, value);
      ReplaceBelowHead(params, name, value, tail);
      [params[0]] + tail
  }

  /** The first pair is the one named `name`. */
  lemma ReplaceAtHead(params: Params, name: string, value: string)
    requires params != [] && params[0].0 == name
    ensures var r := [(name, value)] + Delete(params[1..], name);
            && Get(r, name) == Some(value)
            && (forall n :: n != name ==> Get(r, n) == Get(params, n))
            && Delete(r, name) == Delete(params, name)
            && FirstIndex(params, name) == 0
            && r == params[..0] + [(name, value)] + Delete(params[0 + 1..], name)
  {
    var r := [(name, value)] + Delete(params[1..], name);
    assert r[1..] == Delete(params[1..], name);
    DeleteTwice(params[1..], name);
  }

  /** The first pair named `name` lies in the tail, which `tail` rebuilds. */
  lemma ReplaceBelowHead(params: Params, name: string, value: string, tail: Params)
    requires params != [] && params[0].0 != name && Get(params[1..], name).Some?
    requires Get(tail, name) == Some(value)
    requires forall n :: n != name ==> Get(tail, n) == Get(params[1..], n)
    requires Delete(tail, name) == Delete(params[1..], name)
    requires var i := FirstIndex(params[1..], name);
             tail == params[1..][..i] + [(name, value)] + Delete(params[1..][i + 1..], name)
    ensures var r := [params[0]] + tail;
            && Get(r, name) == Some(value)
            && (forall n :: n != name ==> Get(r, n) == Get(params, n))
            && Delete(r, name) == Delete(params, name)
            && var i := FirstIndex(params, name);
               r == params[..i] + [(name, value)] + Delete(params[i + 1..], name)
  {
    HeadKeepsLookups(params, name, value, tail);
    HeadKeepsSplice(params, name, value, tail);
  }

  /** Putting a pair with another name back in front moves the splice by one. */
  lemma HeadKeepsSplice(params: Params, name: string, value: string, tail: Params)
    requires params != [] && params[0].0 != name && Get(params[1..], name).Some?
    requires var i := FirstIndex(params[1..], name);
             tail == params[1..][..i] + [(name, value)] + Delete(params[1..][i + 1..], name)
    ensures var i := FirstIndex(params, name);
            [params[0]] + tail == params[..i] + [(name, value)] + Delete(params[i + 1..], name)
  {
    var i := FirstIndex(params[1..], name);
    assert FirstIndex(params, name) == i + 1;
    PrependAround(params, i, [(name, value)], tail, Delete(params[1..][i + 1..], name));
  }

  /** A pair with another name put back in front changes no lookup. */
  lemma HeadKeepsLookups(params: Params, name: string, value: string, tail: Params)
    requires params != [] && params[0].0 != name
    requires Get(tail, name) == Some(value)
    requires forall n :: n != name ==> Get(tail, n) == Get(params[1..], n)
    requires Delete(tail, name) == Delete(params[1..], name)
    ensures var r := [params[0]] + tail;
            && Get(r, name) == Some(value)
            && (forall n :: n != name ==> Get(r, n) == Get(params, n))
            && Delete(r, name) == Delete(params, name)
  {
    var r := [params[0]] + tail;
    assert r[1..] == tail;
  }

  /** Putting the head back in front of a list rebuilt around position `i` of
      the tail rebuilds the whole list around position `i + 1`. */
  lemma PrependAround(params: Params, i: nat, mid: Params, tail: Params, rest: Params)
    requires i < |params| - 1
    requires tail == params[1..][..i] + mid + rest
    ensures [params[0]] + tail == params[..i + 1] + mid + rest
    ensures params[i + 2..] == params[1..][i + 1..]
  {
    assert params[..i + 1] == [params[0]] + params[1..][..i];
  }

  /** Deleting a name twice is deleting it once. */
  lemma {:induction false} DeleteTwice(params: Params, name: string)
    ensures Delete(Delete(params, name), name) == Delete(params, name)
  {
    if params != [] {
      DeleteTwice(params[1..], name);
      var rest := Delete(params[1..], name);
      if params[0].0 != name {
        assert ([params[0]] + rest)[1..] == rest;
      }
    }
  }

  /** Deleting from two lists one after the other is deleting from each: with
      the one-pair case, the kept pairs stay in their order and number. */
  lemma DeleteAppend(a: Params, b: Params, name: string)
    ensures Delete(a + b, name) == Delete(a, name) + Delete(b, name)
  {
    DeleteIsKept(a + b, name);
    DeleteIsKept(a, name);
    DeleteIsKept(b, name);
    KeptAppend(a, b, name);
  }

  /** The pairs whose name differs, in order: `Delete` without its lookup facts. */
  function Kept(params: Params, name: string): Params {
    if params == [] then []
    else (if params[0].0 == name then [] else [params[0]]) + Kept(params[1..], name)
  }

  lemma {:induction false} DeleteIsKept(params: Params, name: string)
    ensures Delete(params, name) == Kept(params, name)
  {
    if params != [] {
      DeleteIsKept(params[1..], name);
    }
  }

  lemma {:induction false} KeptAppend(a: Params, b: Params, name: string)
    ensures Kept(a + b, name) == Kept(a, name) + Kept(b, name)
  {
    if a == [] {
      assert a + b == b;
    } else {
      assert (a + b)[0] == a[0] && (a + b)[1..] == a[1..] + b;
      KeptAppend(a[1..], b, name);
    }
  }

  /** Appending a pair under a name not yet present: the lookups `set` promises. */
  lemma {:induction false} SetAbsentAppends(params: Params, name: string, value: string)
    requires Get(params, name).None?
    ensures Get(params + [(name, value)], name) == Some(value)
    ensures forall n :: n != name ==> Get(params + [(name, value)], n) == Get(params, n)
    ensures Delete(params + [(name, value)], name) == Delete(params, name)
  {
    if params != [] {
      SetAbsentAppends(params[1..], name, value);
      assert (params + [(name, value)])[1..] == params[1..] + [(name, value)];
    } else {
      assert Delete([(name, value)], name) == Delete([], name);
    }
  }

  /** `name=value`. */
  function PairText(p: (string, string)): (s: string)
    ensures |s| >= 1
  {
    p.0 + "=" + p.1
  }

  /** `params.toString()`: the pairs as `name=value`, joined by '&'. */
  function Serialize(params: Params): (s: string)
    ensures s == [] <==> params == []
    ensures |params| == 1 ==> s == params[0].0 + "=" + params[0].1
  {
    if params == [] then ""
    else if |params| == 1 then PairText(params[0])
    else PairText(params[0]) + "&" + Serialize(params[1..])
  }

  /** Serializing two non-empty lists one after the other joins their texts
      with a single '&': with the one-pair case, this fixes the whole text. */
  lemma {:induction false} SerializeAppend(a: Params, b: Params)
    requires a != [] && b != []
    ensures Serialize(a + b) == Serialize(a) + "&" + Serialize(b)
  {
    assert (a + b)[0] == a[0];
    assert (a + b)[1..] == a[1..] + b;
    if |a| > 1 {
      SerializeAppend(a[1..], b);
    }
  }
}
