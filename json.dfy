/**
 * The decoded body of a lexical-service response, and the Python indexing
 * operations (`value[name]`, `value[0]`) that the definition extraction applies to it.
 */
module Json {
  import opened Wrappers

  datatype Json =
    | JNull
    | JBool(b: bool)
    | JNum(n: int)
    | JStr(s: string)
    | JArr(items: seq<Json>)
    | JObj(members: map<string, Json>)

  /**
   * `j[name]`: defined on objects that hold the key. A missing key raises
   * KeyError; indexing a list, string, number, boolean or null by a string
   * raises TypeError. Both are `None` here.
   */
  function Member(j: Json, name: string): (r: Option<Json>)
    ensures r.Some? <==> j.JObj? && name in j.members
    ensures r.Some? ==> r.value == j.members[name]
  {
    match j
    case JObj(m) => if name in m then Some(m[name]) else None
    case _ => None
  }

  /**
   * `j[0]`: the first item of a non-empty list, or the first character (as a
   * one-character string) of a non-empty string. An empty list or string
   * raises IndexError, an object has no integer key (KeyError), and numbers,
   * booleans and null are not subscriptable (TypeError).
   */
  function Head(j: Json): (r: Option<Json>)
    ensures r.Some? <==> (j.JArr? && |j.items| > 0) || (j.JStr? && |j.s| > 0)
    ensures r.Some? && j.JArr? ==> r.value == j.items[0]
    ensures r.Some? && j.JStr? ==> r.value == JStr([j.s[0]])
  {
    match j
    case JArr(xs) => if |xs| > 0 then Some(xs[0]) else None
    case JStr(s) => if |s| > 0 then Some(JStr([s[0]])) else None
    case _ => None
  }

  /** One subscript of an indexing chain. */
  datatype Step = Key(name: string) | Index0

  function StepInto(j: Json, step: Step): Option<Json> {
    match step
    case Key(name) => Member(j, name)
    case Index0 => Head(j)
  }

  /** Applies a chain of subscripts left to right; `None` as soon as one of them fails. */
  function Follow(j: Json, path: seq<Step>): Option<Json>
    decreases |path|
  {
    if path == [] then Some(j)
    else
      match StepInto(j, path[0])
      case None => None
      case Some(x) => Follow(x, path[1..])
  }

  /** Following p + q is following p, then q from wherever p led. */
  lemma {:induction false} FollowAppend(j: Json, p: seq<Step>, q: seq<Step>)
    ensures Follow(j, p + q) == match Follow(j, p) case None => None case Some(x) => Follow(x, q)
    decreases |p|
  {
    if p == [] {
      assert p + q == q;
    } else {
      assert (p + q)[0] == p[0];
      assert (p + q)[1..] == p[1..] + q;
      match StepInto(j, p[0])
      case None =>
      case Some(x) => FollowAppend(x, p[1..], q);
    }
  }
}
