/** Shared vocabulary of the campus portal model: identifiers, roles, the
    Option/Result wrappers used for the services' thrown errors, JSON request
    values, and generic searches over document collections. */
module Common {

  /** An ObjectId of any collection; only equality matters. */
  type Id = nat

  datatype Option<+T> = None | Some(value: T)

  /** A service call either returns a value or throws `new Error(msg)`. */
  datatype Result<+T> = Ok(value: T) | Err(msg: string)

  /** The roles of src/models/User.js (`enum: ['student', 'faculty', 'admin']`). */
  datatype Role = Student | Faculty | Admin

  function RoleName(r: Role): string
  {
    match r
    case Student => "student"
    case Faculty => "faculty"
    case Admin => "admin"
  }

  /** `['student', 'faculty', 'admin'].includes(s)`, giving the role it names. */
  function ParseRole(s: string): (r: Option<Role>)
    ensures r.Some? ==> RoleName(r.value) == s
  {
    if s == "student" then Some(Student)
    else if s == "faculty" then Some(Faculty)
    else if s == "admin" then Some(Admin)
    else None
  }

  lemma ParseRoleName(r: Role)
    ensures ParseRole(RoleName(r)) == Some(r)
  {
  }

  /** A value of a JSON request body. */
  datatype Value = Text(s: string) | Num(n: int) | Bool(b: bool) | Null | Object(fields: map<string, Value>)

  /** JavaScript truthiness of an optional string field (`undefined` and `''` are falsy). */
  predicate Truthy(s: Option<string>)
  {
    s.Some? && s.value != ""
  }

  /** The `TypeError` of a call `X.m(...)` when `X` was bound by
      `const X = require('../models/x.model')`: those files export the
      object `{ XModel }`, whose `m` is `undefined`. */
  function NotAFunction(binding: string, call: string): string
  {
    binding + "." + call + " is not a function"
  }

  /** The `TypeError` of `new X(...)` on such a binding. */
  function NotAConstructor(binding: string): string
  {
    binding + " is not a constructor"
  }

  /** A stored document: its ObjectId and its fields. */
  datatype Doc<+T> = Doc(id: Id, val: T)

  /** The index of the first element satisfying `p`, the way `findOne` and
      `Array.prototype.find` scan in natural order. */
  function FirstIndex<T>(s: seq<T>, p: T -> bool): (r: Option<nat>)
    ensures r.Some? ==> r.value < |s| && p(s[r.value]) && forall j :: 0 <= j < r.value ==> !p(s[j])
    ensures r.None? ==> forall j :: 0 <= j < |s| ==> !p(s[j])
  {
    if |s| == 0 then None
    else if p(s[0]) then Some(0)
    else
      match FirstIndex(s[1..], p)
      case None => None
      case Some(k) => Some(k + 1)
  }

  /** The first index satisfying `p` is the one `FirstIndex` finds. */
  lemma FirstIndexIs<T>(s: seq<T>, p: T -> bool, i: nat)
    requires i < |s| && p(s[i]) && forall j :: 0 <= j < i ==> !p(s[j])
    ensures FirstIndex(s, p) == Some(i)
  {
  }

  /** `Model.findById(id)`: the position of the document with that id. */
  function Find<T>(s: seq<Doc<T>>, id: Id): (r: Option<nat>)
    ensures r.Some? ==> r.value < |s| && s[r.value].id == id
    ensures r.None? <==> forall j :: 0 <= j < |s| ==> s[j].id != id
  {
    if |s| == 0 then None
    else if s[0].id == id then Some(0)
    else
      match Find(s[1..], id)
      case None => None
      case Some(k) => Some(k + 1)
  }

  /** Ids strictly increase along the collection and stay below `bound`
      (ObjectIds are allocated in increasing order). */
  ghost predicate WellKeyed<T>(s: seq<Doc<T>>, bound: Id)
  {
    (forall i, j :: IdsOrdered(s, i, j)) &&
    (forall i :: IdBelow(s, i, bound))
  }

  /** The two facts `WellKeyed` keeps about positions `i < j`, stated
      apart so that only the lemmas below look inside a well-keyed collection. */
  ghost predicate IdsOrdered<T>(s: seq<Doc<T>>, i: int, j: int)
  {
    0 <= i < j < |s| ==> s[i].id < s[j].id
  }

  ghost predicate IdBelow<T>(s: seq<Doc<T>>, i: int, bound: Id)
  {
    0 <= i < |s| ==> s[i].id < bound
  }

  /** Two positions of a well-keyed collection: ordered ids, both below the bound. */
  lemma KeyedAt<T>(s: seq<Doc<T>>, bound: Id, i: int, j: int)
    requires WellKeyed(s, bound) && 0 <= i < |s| && 0 <= j < |s|
    ensures i < j ==> s[i].id < s[j].id
    ensures i != j ==> s[i].id != s[j].id
    ensures s[i].id < bound && s[j].id < bound
  {
    assert IdsOrdered(s, i, j) && IdsOrdered(s, j, i) && IdBelow(s, i, bound) && IdBelow(s, j, bound);
  }

  /** A collection with the same ids position by position is just as well keyed. */
  lemma SameIdsWellKeyed<T>(s: seq<Doc<T>>, t: seq<Doc<T>>, bound: Id)
    requires WellKeyed(s, bound) && |t| == |s|
    requires forall k :: 0 <= k < |s| ==> t[k].id == s[k].id
    ensures WellKeyed(t, bound)
  {
    forall i, j ensures IdsOrdered(t, i, j) {
      if 0 <= i < j < |t| {
        KeyedAt(s, bound, i, j);
      }
    }
    forall i ensures IdBelow(t, i, bound) {
      if 0 <= i < |t| {
        KeyedAt(s, bound, i, i);
      }
    }
  }

  /** In a well-keyed collection the document found for an id is the only one with that id. */
  lemma FindUnique<T>(s: seq<Doc<T>>, bound: Id, id: Id, k: nat)
    requires WellKeyed(s, bound) && k < |s| && s[k].id == id
    ensures Find(s, id) == Some(k)
  {
    KeyedAt(s, bound, Find(s, id).value, k);
  }

  /** The collection without position `i` (`findByIdAndDelete`). */
  function RemoveAt<T>(s: seq<T>, i: nat): (r: seq<T>)
    requires i < |s|
    ensures |r| == |s| - 1
    ensures forall j :: 0 <= j < i ==> r[j] == s[j]
    ensures forall j :: i <= j < |r| ==> r[j] == s[j + 1]
  {
    s[..i] + s[i + 1..]
  }

  /** Removing position `i` keeps every element other than the one there. */
  lemma RemoveAtKeeps<T>(s: seq<T>, i: nat, x: T)
    requires i < |s| && x in s && x != s[i]
    ensures x in RemoveAt(s, i)
  {
    var k :| 0 <= k < |s| && s[k] == x;
    if k < i {
      assert RemoveAt(s, i)[k] == x;
    } else {
      assert RemoveAt(s, i)[k - 1] == x;
    }
  }

  lemma RemoveAtWellKeyed<T>(s: seq<Doc<T>>, bound: Id, i: nat)
    requires WellKeyed(s, bound) && i < |s|
    ensures WellKeyed(RemoveAt(s, i), bound)
    ensures forall j :: 0 <= j < |RemoveAt(s, i)| ==> RemoveAt(s, i)[j].id != s[i].id
  {
    var r := RemoveAt(s, i);
    forall a, b ensures IdsOrdered(r, a, b) {
      if 0 <= a < b < |r| {
        var a' := if a < i then a else a + 1;
        var b' := if b < i then b else b + 1;
        KeyedAt(s, bound, a', b');
        assert r[a] == s[a'] && r[b] == s[b'];
      }
    }
    forall a | 0 <= a < |r| ensures r[a].id < bound && r[a].id != s[i].id {
      var a' := if a < i then a else a + 1;
      KeyedAt(s, bound, a', i);
      assert r[a] == s[a'];
    }
    forall a ensures IdBelow(r, a, bound) {
    }
  }

  lemma AppendWellKeyed<T>(s: seq<Doc<T>>, bound: Id, d: T)
    requires WellKeyed(s, bound)
    ensures WellKeyed(s + [Doc(bound, d)], bound + 1)
  {
    AppendConsecutiveWellKeyed(s, bound, [Doc(bound, d)]);
  }

  /** The ids of `t` are `bound`, `bound + 1`, ... in order. */
  ghost predicate Consecutive<T>(t: seq<Doc<T>>, bound: Id)
  {
    forall i :: 0 <= i < |t| ==> t[i].id == bound + i
  }

  /** Documents numbered on from the bound keep the collection well keyed. */
  lemma AppendConsecutiveWellKeyed<T>(s: seq<Doc<T>>, bound: Id, t: seq<Doc<T>>)
    requires WellKeyed(s, bound) && Consecutive(t, bound)
    ensures WellKeyed(s + t, bound + |t|)
  {
    var r := s + t;
    forall i, j ensures IdsOrdered(r, i, j) {
      if 0 <= i < j < |r| {
        if j < |s| {
          KeyedAt(s, bound, i, j);
        } else if i < |s| {
          KeyedAt(s, bound, i, i);
          assert t[j - |s|].id == bound + (j - |s|);
        } else {
          assert t[i - |s|].id == bound + (i - |s|) && t[j - |s|].id == bound + (j - |s|);
        }
      }
    }
    var top := bound + |t|;
    forall i ensures IdBelow(r, i, top) {
      if 0 <= i < |s| {
        KeyedAt(s, bound, i, i);
      } else if |s| <= i < |r| {
        assert t[i - |s|].id == bound + (i - |s|);
      }
    }
  }

  lemma UpdateWellKeyed<T>(s: seq<Doc<T>>, bound: Id, i: nat, d: T)
    requires WellKeyed(s, bound) && i < |s|
    ensures WellKeyed(s[i := Doc(s[i].id, d)], bound)
  {
    SameIdsWellKeyed(s, s[i := Doc(s[i].id, d)], bound);
  }

  lemma GrowWellKeyed<T>(s: seq<Doc<T>>, bound: Id, bound': Id)
    requires WellKeyed(s, bound) && bound <= bound'
    ensures WellKeyed(s, bound')
  {
    forall i ensures IdBelow(s, i, bound') {
      if 0 <= i < |s| {
        KeyedAt(s, bound, i, i);
      }
    }
  }

  /** No element occurs twice. */
  predicate NoDup<T(==)>(s: seq<T>)
  {
    forall i, j :: 0 <= i < j < |s| ==> s[i] != s[j]
  }

  /** `$pull`: every occurrence of `x` removed, the rest kept in order. */
  function RemoveAll<T(==,!new)>(s: seq<T>, x: T): (r: seq<T>)
    ensures |r| <= |s|
    ensures x !in r
    ensures forall y :: y in r <==> y in s && y != x
    ensures x !in s ==> r == s
    ensures forall y :: y != x ==> multiset(r)[y] == multiset(s)[y]
  {
    if |s| == 0 then []
    else
      assert s == [s[0]] + s[1..];
      if s[0] == x then RemoveAll(s[1..], x)
      else [s[0]] + RemoveAll(s[1..], x)
  }

  lemma {:induction false} RemoveAllNoDup<T(!new)>(s: seq<T>, x: T)
    requires NoDup(s)
    ensures NoDup(RemoveAll(s, x))
  {
    if |s| > 0 {
      assert NoDup(s[1..]) by {
        forall i, j | 0 <= i < j < |s[1..]| ensures s[1..][i] != s[1..][j] {
          assert s[1..][i] == s[i + 1] && s[1..][j] == s[j + 1];
        }
      }
      RemoveAllNoDup(s[1..], x);
      if s[0] != x {
        var rest := RemoveAll(s[1..], x);
        assert s[0] !in s[1..] by {
          forall k | 0 <= k < |s[1..]| ensures s[1..][k] != s[0] {
            assert s[1..][k] == s[k + 1];
          }
        }
        assert s[0] !in rest;
        var r := [s[0]] + rest;
        forall i, j | 0 <= i < j < |r| ensures r[i] != r[j] {
          if i == 0 { assert r[j] == rest[j - 1]; assert r[j] in rest; }
          else { assert r[i] == rest[i - 1] && r[j] == rest[j - 1]; }
        }
      }
    }
  }

  lemma {:induction false} RemoveAllIdempotent<T(!new)>(s: seq<T>, x: T)
    ensures RemoveAll(RemoveAll(s, x), x) == RemoveAll(s, x)
  {
  }

  /** Number of documents whose fields satisfy `p` (`filter(...).length`, `countDocuments`). */
  function Count<T>(s: seq<Doc<T>>, p: T -> bool): (n: nat)
    ensures n <= |s|
  {
    if |s| == 0 then 0 else (if p(s[0].val) then 1 else 0) + Count(s[1..], p)
  }

  /** Replacing one document changes the count by what it takes out and what it puts in. */
  lemma {:induction false} CountUpdate<T>(s: seq<Doc<T>>, p: T -> bool, i: nat, d: Doc<T>)
    requires i < |s|
    ensures Count(s[i := d], p) == Count(s, p) - (if p(s[i].val) then 1 else 0) + (if p(d.val) then 1 else 0)
  {
    if i > 0 {
      CountUpdate(s[1..], p, i - 1, d);
      assert s[i := d][1..] == s[1..][i - 1 := d];
    }
  }

  /** Collections that agree on `p` position by position have the same count. */
  lemma {:induction false} CountAgree<T>(s: seq<Doc<T>>, t: seq<Doc<T>>, p: T -> bool)
    requires |s| == |t| && forall k :: 0 <= k < |s| ==> p(s[k].val) == p(t[k].val)
    ensures Count(s, p) == Count(t, p)
  {
    if |s| > 0 {
      CountAgree(s[1..], t[1..], p);
    }
  }

  /** A count over documents none of which satisfies `p` is zero. */
  lemma {:induction false} CountNone<T>(s: seq<Doc<T>>, p: T -> bool)
    requires forall k :: 0 <= k < |s| ==> !p(s[k].val)
    ensures Count(s, p) == 0
  {
    if |s| > 0 {
      CountNone(s[1..], p);
    }
  }

  /** Counting under a stronger condition never gives more. */
  lemma {:induction false} CountMonotone<T>(s: seq<Doc<T>>, p: T -> bool, q: T -> bool)
    requires forall x :: p(x) ==> q(x)
    ensures Count(s, p) <= Count(s, q)
  {
    if |s| > 0 {
      CountMonotone(s[1..], p, q);
    }
  }

  /** `Model.find(filter)`: the matching documents in natural order. */
  function Select<T(!new)>(s: seq<Doc<T>>, p: T -> bool): (r: seq<Doc<T>>)
    ensures |r| == Count(s, p)
    ensures forall d :: d in r <==> d in s && p(d.val)
  {
    if |s| == 0 then []
    else if p(s[0].val) then [s[0]] + Select(s[1..], p)
    else Select(s[1..], p)
  }

  /** The fields `allowed` of a request body and nothing else: the
      `allowedFields.forEach(...)` loop that fills `updateData`. */
  method SelectAllowed(data: map<string, Value>, allowed: seq<string>) returns (updateData: map<string, Value>)
    ensures updateData.Keys == data.Keys * (set f | f in allowed)
    ensures forall f :: f in updateData ==> updateData[f] == data[f]
  {
    updateData := map[];
    for i := 0 to |allowed|
      invariant updateData.Keys == data.Keys * (set f | f in allowed[..i])
      invariant forall f :: f in updateData ==> updateData[f] == data[f]
    {
      var field := allowed[i];
      if field in data {
        updateData := updateData[field := data[field]];
      }
      assert allowed[..i + 1] == allowed[..i] + [field];
    }
    assert allowed[..|allowed|] == allowed;
  }

  /** ASCII `String.prototype.toLowerCase`. */
  function ToLower(s: string): (r: string)
    ensures |r| == |s|
    ensures forall i :: 0 <= i < |s| ==> r[i] == LowerChar(s[i])
  {
    if |s| == 0 then [] else [LowerChar(s[0])] + ToLower(s[1..])
  }

  function LowerChar(c: char): char
  {
    if 'A' <= c <= 'Z' then (c as int - 'A' as int + 'a' as int) as char else c
  }

  /** The whitespace `trim` and `parseInt` skip (the ASCII part of it). */
  predicate IsSpace(c: char)
  {
    c == ' ' || c == '\t' || c == '\n' || c == '\r' || c == '\U{000B}' || c == '\U{000C}'
  }

  /** The first position from `i` on that does not hold whitespace. */
  function SkipSpace(s: string, i: nat): (k: nat)
    requires i <= |s|
    ensures i <= k <= |s| && (k < |s| ==> !IsSpace(s[k]))
    decreases |s| - i
  {
    if i < |s| && IsSpace(s[i]) then SkipSpace(s, i + 1) else i
  }

  /** Everything `SkipSpace` passes over is whitespace. */
  lemma {:induction false} SkippedAreSpace(s: string, i: nat)
    requires i <= |s|
    ensures forall j :: i <= j < SkipSpace(s, i) ==> IsSpace(s[j])
    decreases |s| - i
  {
    if i < |s| && IsSpace(s[i]) {
      SkippedAreSpace(s, i + 1);
    }
  }

  /** The end of `s[..j]` once its trailing whitespace is gone. */
  function BackSpace(s: string, j: nat): (k: nat)
    requires j <= |s|
    ensures k <= j && (k > 0 ==> !IsSpace(s[k - 1]))
  {
    if j > 0 && IsSpace(s[j - 1]) then BackSpace(s, j - 1) else j
  }

  /** Everything `BackSpace` passes over is whitespace. */
  lemma {:induction false} BackedAreSpace(s: string, j: nat)
    requires j <= |s|
    ensures forall i :: BackSpace(s, j) <= i < j ==> IsSpace(s[i])
  {
    if j > 0 && IsSpace(s[j - 1]) {
      BackedAreSpace(s, j - 1);
    }
  }

  /** The text after its leading whitespace. */
  function TrimStart(s: string): (r: string)
    ensures |r| <= |s|
    ensures |r| > 0 ==> !IsSpace(r[0])
  {
    s[SkipSpace(s, 0)..]
  }

  /** `TrimStart` removes a prefix of whitespace and nothing else. */
  lemma TrimStartDropsSpace(s: string)
    ensures var r := TrimStart(s);
      r == s[|s| - |r|..] && forall i :: 0 <= i < |s| - |r| ==> IsSpace(s[i])
  {
    SkippedAreSpace(s, 0);
  }

  /** The text before its trailing whitespace. */
  function TrimEnd(s: string): (r: string)
    ensures |r| <= |s|
    ensures |r| > 0 ==> !IsSpace(r[|r| - 1]) && r[0] == s[0]
  {
    s[..BackSpace(s, |s|)]
  }

  /** `TrimEnd` removes a suffix of whitespace and nothing else. */
  lemma TrimEndDropsSpace(s: string)
    ensures var r := TrimEnd(s);
      r == s[..|r|] && forall i :: |r| <= i < |s| ==> IsSpace(s[i])
  {
    BackedAreSpace(s, |s|);
  }

  /** `String.prototype.trim`, the `trim: true` schema setter. */
  function Trim(s: string): (r: string)
    ensures |r| <= |s|
    ensures |r| > 0 ==> !IsSpace(r[0]) && !IsSpace(r[|r| - 1])
  {
    TrimEnd(TrimStart(s))
  }

  /** `Trim` keeps a middle stretch of `s`: only whitespace goes on either side. */
  lemma TrimKeepsMiddle(s: string)
    ensures var i := |s| - |TrimStart(s)|;
      i + |Trim(s)| <= |s| && Trim(s) == s[i..i + |Trim(s)|] &&
      (forall k :: 0 <= k < i ==> IsSpace(s[k])) &&
      (forall k :: i + |Trim(s)| <= k < |s| ==> IsSpace(s[k]))
  {
    var t := TrimStart(s);
    TrimStartDropsSpace(s);
    TrimEndDropsSpace(t);
    var i := |s| - |t|;
    var r := Trim(s);
    assert r == t[..|r|];
    assert t == s[i..];
    assert r == s[i..i + |r|];
    forall k | i + |r| <= k < |s| ensures IsSpace(s[k]) {
      assert s[k] == t[k - i];
    }
  }

  /** ASCII `String.prototype.toUpperCase`. */
  function ToUpper(s: string): (r: string)
    ensures |r| == |s|
    ensures forall i :: 0 <= i < |s| ==> r[i] == UpperChar(s[i])
  {
    if |s| == 0 then [] else [UpperChar(s[0])] + ToUpper(s[1..])
  }

  function UpperChar(c: char): char
  {
    if 'a' <= c <= 'z' then (c as int - 'a' as int + 'A' as int) as char else c
  }

  lemma ToLowerIdempotent(s: string)
    ensures ToLower(ToLower(s)) == ToLower(s)
  {
    var once := ToLower(s);
    assert forall i :: 0 <= i < |s| ==> LowerChar(once[i]) == once[i];
  }
}
