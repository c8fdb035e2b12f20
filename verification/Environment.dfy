/** The environment: strings "name=value" one after the other, each ended by a NUL, and a
    second NUL at the end of all. */
module Environment {
  import opened Basics

  type str = seq<byte>

  const EQUALS: byte := 61
  const SPACE: byte := 32

  /** The strings that C can hold. */
  predicate NoNul(s: str) { forall i {:trigger s[i]} :: 0 <= i < |s| ==> s[i] != 0 }

  predicate IsName(s: str) { NoNul(s) && forall i {:trigger s[i]} :: 0 <= i < |s| ==> s[i] != EQUALS }

  /** Where the first '=' is; the length, if there is none. */
  function Equals(e: str): (i: nat)
    ensures i <= |e| && (forall j {:trigger e[j]} :: 0 <= j < i ==> e[j] != EQUALS) && (i < |e| ==> e[i] == EQUALS)
  { if |e| == 0 || e[0] == EQUALS then 0 else 1 + Equals(e[1..]) }

  function Key(e: str): str { e[..Equals(e)] }

  predicate IsEntry(e: str) { NoNul(e) && Equals(e) < |e| }

  function Val(e: str): str
    requires IsEntry(e)
  { e[Equals(e) + 1..] }

  // ----- the bytes that the entries are -----

  function Cat(es: seq<str>): str { if |es| == 0 then [] else Cat(es[..|es| - 1]) + es[|es| - 1] + [0] }

  function Image(es: seq<str>): str { if |es| == 0 then [0, 0] else Cat(es) + [0] }

  ghost predicate Entries(es: seq<str>) {
    && (forall k {:trigger es[k]} :: 0 <= k < |es| ==> IsEntry(es[k]))
    && (forall k, l {:trigger Differ(es, k, l)} :: Differ(es, k, l))
  }
  ghost predicate Differ(es: seq<str>, k: int, l: int) { 0 <= k < l < |es| ==> Key(es[k]) != Key(es[l]) }

  /** The bytes `data` are these entries; whatever follows the second NUL does not matter. */
  ghost predicate Holds(data: str, es: seq<str>) {
    Entries(es) && |Image(es)| <= |data| && data[..|Image(es)|] == Image(es)
  }

  lemma {:induction false} CatAdds(es: seq<str>, fs: seq<str>)
    ensures Cat(es + fs) == Cat(es) + Cat(fs)
    decreases |fs|
  {
    if |fs| == 0 {
      assert es + fs == es;
    } else {
      var n := |fs| - 1;
      assert (es + fs)[..|es + fs| - 1] == es + fs[..n];
      CatAdds(es, fs[..n]);
    }
  }

  lemma CatOne(e: str)
    ensures Cat([e]) == e + [0]
  {
    var one: seq<str> := [e];
    assert Cat(one[..0]) == [] && Cat(one) == Cat(one[..0]) + e + [0];
  }

  lemma CatThree(es: seq<str>, e: str, fs: seq<str>)
    ensures Cat(es + [e] + fs) == Cat(es) + e + [0] + Cat(fs)
  {
    CatAdds(es + [e], fs);
    CatAdds(es, [e]);
    CatOne(e);
    assert Cat(es) + (e + [0]) + Cat(fs) == Cat(es) + e + [0] + Cat(fs);
  }

  lemma CatSplit(es: seq<str>, k: nat)
    requires k < |es|
    ensures Cat(es) == Cat(es[..k]) + es[k] + [0] + Cat(es[k + 1..])
  {
    Cut3(es, k);
    CatThree(es[..k], es[k], es[k + 1..]);
  }

  lemma Cut3(es: seq<str>, k: nat)
    requires k < |es|
    ensures es[..k] + [es[k]] + es[k + 1..] == es
  {}

  lemma FirstOff(es: seq<str>)
    requires |es| > 0
    ensures Cat(es) == es[0] + [0] + Cat(es[1..])
  {
    CatSplit(es, 0);
    assert es[..0] == [] && Cat(es[..0]) == [];
    assert [] + es[0] == es[0];
  }

  /** String s and its NUL are at i. */
  ghost predicate StringAt(data: str, i: int, s: str) {
    0 <= i && i + |s| < |data| && data[i..i + |s|] == s && data[i + |s|] == 0 && NoNul(s)
  }

  /** Entry k begins after the entries before it. */
  lemma EntryAt(data: str, es: seq<str>, k: nat)
    requires Holds(data, es) && k < |es|
    ensures StringAt(data, |Cat(es[..k])|, es[k]) && |Cat(es[..k + 1])| == |Cat(es[..k])| + |es[k]| + 1
    ensures |Cat(es[..k])| + |es[k]| + 2 <= |Image(es)|
  {
    assert es[..k + 1][..k] == es[..k];
    assert IsEntry(es[k]);
    ImageSplit(es, k);
    PartAt(data, Image(es), Cat(es[..k]), es[k], Cat(es[k + 1..]) + [0]);
  }

  lemma ImageSplit(es: seq<str>, k: nat)
    requires k < |es|
    ensures Image(es) == Cat(es[..k]) + es[k] + [0] + (Cat(es[k + 1..]) + [0])
  {
    CatSplit(es, k);
  }

  lemma PartAt(data: str, im: str, s: str, e: str, t: str)
    requires im == s + e + [0] + t && |im| <= |data| && data[..|im|] == im && NoNul(e)
    ensures StringAt(data, |s|, e)
  {
    SliceOf(data, im, |s|, |s| + |e|);
    assert data[|s| + |e|] == im[|s| + |e|];
  }

  lemma SliceOf(data: str, im: str, a: nat, b: nat)
    requires a <= b <= |im| <= |data| && data[..|im|] == im
    ensures data[a..b] == im[a..b]
  {
    forall i {:trigger data[a..b][i]} | 0 <= i < b - a
      ensures data[a..b][i] == im[a..b][i]
    {
      assert data[..|im|][a + i] == im[a + i];
    }
  }

  /** After the last entry there is a NUL. */
  lemma EndAt(data: str, es: seq<str>)
    requires Holds(data, es)
    ensures es[..|es|] == es && |Cat(es)| < |Image(es)| && data[|Cat(es)|] == 0
  {
    var im := Image(es);
    assert data[|Cat(es)|] == im[|Cat(es)|];
  }

  // ----- searching -----

  /** s1 is a name, or begins with a name and '='. */
  function NameOf(s1: str): str { s1[..Equals(s1)] }

  /** Match a name with the entry at `i2`: the place of its value, or -1. */
  method EnvMatch(data: array<byte>, s1: str, i2: nat, ghost e: str) returns (r: int)
    requires NoNul(s1) && IsEntry(e) && StringAt(data[..], i2, e)
    ensures r == if Key(e) == NameOf(s1) then i2 + Equals(e) + 1 else -1
  {
    StringChars(data[..], i2, e);
    var j := 0;
    while CharAt(s1, j) == data[i2 + j]
      invariant j <= Equals(e) && j <= Equals(s1) && i2 + j < data.Length && s1[..j] == e[..j]
      decreases |e| - j
    {
      if CharAt(s1, j) == EQUALS {
        return i2 + j + 1;
      }
      j := j + 1;
    }
    assert Key(e) == NameOf(s1) ==> Equals(e) == Equals(s1);
    if CharAt(s1, j) == 0 && data[i2 + j] == EQUALS {
      return i2 + j + 1;
    }
    return -1;
  }

  /** The character of a C string, or its NUL. */
  function CharAt(s: str, j: nat): byte { if j < |s| then s[j] else 0 }

  lemma StringChars(data: str, i: nat, s: str)
    requires StringAt(data, i, s)
    ensures forall x {:trigger data[x]} :: i <= x <= i + |s| ==> data[x] == CharAt(s, x - i)
  {
    forall x {:trigger data[x]} | i <= x < i + |s|
      ensures data[x] == s[x - i]
    {
      assert data[x] == data[i..i + |s|][x - i];
    }
  }

  lemma FirstChar(data: str, es: seq<str>, k: nat)
    requires Holds(data, es) && k <= |es|
    ensures |Cat(es[..k])| < |data| && (data[|Cat(es[..k])|] == 0 <==> k == |es|)
  {
    if k < |es| {
      EntryAt(data, es, k);
      StringChars(data, |Cat(es[..k])|, es[k]);
      assert IsEntry(es[k]);
    } else {
      EndAt(data, es);
    }
  }

  /** No entry below k has this name. */
  ghost predicate NotBelow(es: seq<str>, name: str, k: int) {
    forall l {:trigger es[l]} :: 0 <= l < k && l < |es| ==> Key(es[l]) != name
  }

  /** The end of the string that begins at `i`. */
  method SkipString(data: array<byte>, i: nat, ghost e: str) returns (nxt: nat)
    requires StringAt(data[..], i, e)
    ensures nxt == i + |e|
  {
    nxt := i;
    StringChars(data[..], i, e);
    while data[nxt] != 0
      invariant i <= nxt <= i + |e|
      decreases i + |e| - nxt
    {
      nxt := nxt + 1;
    }
  }

  /** The first loop of setenv, and that of getenv: the entry with this name. */
  method Find(data: array<byte>, s1: str, ghost es: seq<str>) returns (oldval: int, env: nat, nxt: nat, ghost k: nat)
    requires NoNul(s1) && Holds(data[..], es)
    ensures oldval < 0 ==> NotBelow(es, NameOf(s1), |es|)
    ensures oldval >= 0 ==>
      k < |es| && Key(es[k]) == NameOf(s1) && env == |Cat(es[..k])| && nxt == env + |es[k]|
      && oldval == env + |Key(es[k])| + 1
  {
    oldval, env, nxt, k := -1, 0, 0, 0;
    FirstChar(data[..], es, 0);
    while data[env] != 0
      invariant k <= |es| && env == |Cat(es[..k])| < data.Length && NotBelow(es, NameOf(s1), k)
      invariant data[env] == 0 <==> k == |es|
      invariant oldval == -1
      decreases |es| - k
    {
      EntryAt(data[..], es, k);
      assert IsEntry(es[k]);
      nxt := SkipString(data, env, es[k]);
      oldval := EnvMatch(data, s1, env, es[k]);
      if oldval >= 0 {
        return;
      }
      env := nxt + 1;
      FirstChar(data[..], es, k + 1);
      k := k + 1;
    }
  }

  // ----- deleting -----

  /** The only two NULs in a row are at the end. */
  lemma {:induction false} DoubleEnd(es: seq<str>, i: int)
    requires |es| > 0 && (forall k {:trigger es[k]} :: 0 <= k < |es| ==> IsEntry(es[k])) && 0 <= i <= |Cat(es)| - 1
    ensures |Cat(es)| >= 1 && (Image(es)[i] == 0 && Image(es)[i + 1] == 0 <==> i == |Image(es)| - 2)
    decreases |es|
  {
    var e, rest := es[0], es[1..];
    FirstOff(es);
    assert Image(es) == e + [0] + Cat(rest) + [0];
    if |rest| > 0 {
      FirstOff(rest);
      if i > |e| { DoubleEnd(rest, i - |e| - 1); }
    }
  }

  lemma ImageNonempty(es: seq<str>)
    requires |es| > 0 && IsEntry(es[|es| - 1])
    ensures |Image(es)| >= 3 && Image(es)[|Image(es)| - 1] == 0 && Image(es)[|Image(es)| - 2] == 0
  {}

  /** All of t but its last NUL is at p. */
  ghost predicate Shifted(was: str, now: str, p: nat, t: str) {
    && |now| == |was| && |t| >= 1 && p + |t| <= |now|
    && (forall x {:trigger now[x]} :: 0 <= x < p ==> now[x] == was[x])
    && (forall x {:trigger now[x]} :: p <= x < p + |t| - 1 ==> now[x] == t[x - p])
  }

  /** Shift the tail of the environment down over a deleted entry. */
  method ShiftDown(data: array<byte>, env0: nat, src: nat, ghost rest: seq<str>) returns (env: nat)
    requires |rest| > 0 && forall k {:trigger rest[k]} :: 0 <= k < |rest| ==> IsEntry(rest[k])
    requires env0 < src && src + |Image(rest)| <= data.Length && data[src..src + |Image(rest)|] == Image(rest)
    modifies data
    ensures env == env0 + |Image(rest)| - 2
    ensures Shifted(old(data[..]), data[..], env0, Image(rest))
  {
    ghost var t := Image(rest);
    ImageNonempty(rest);
    env := env0;
    var nxt := src;
    forall x {:trigger data[x]} | src <= x < src + |t|
      ensures data[x] == t[x - src]
    {
      assert data[x] == data[src..src + |t|][x - src];
    }
    while true
      invariant env0 <= env <= env0 + |t| - 2 && nxt == src + (env - env0)
      invariant forall x {:trigger data[x]} :: 0 <= x < env0 ==> data[x] == old(data[x])
      invariant forall x {:trigger data[x]} :: env0 <= x < env ==> data[x] == t[x - env0]
      invariant forall x {:trigger data[x]} :: nxt <= x < src + |t| ==> data[x] == t[x - src]
      decreases env0 + |t| - env
    {
      DoubleEnd(rest, env - env0);
      data[env] := data[nxt];
      nxt := nxt + 1;
      if data[env] == 0 && data[nxt] == 0 {
        break;
      }
      env := env + 1;
    }
  }

  lemma Rebuilt(data: str, es: seq<str>)
    requires Entries(es) && |Image(es)| <= |data| && forall x {:trigger data[x]} :: 0 <= x < |Image(es)| ==>
      data[x] == Image(es)[x]
    ensures Holds(data, es)
  {}

  lemma Without(es: seq<str>, k: nat)
    requires Entries(es) && k < |es|
    ensures Entries(es[..k] + es[k + 1..])
    ensures Cat(es[..k] + es[k + 1..]) == Cat(es[..k]) + Cat(es[k + 1..])
  {
    var fs := es[..k] + es[k + 1..];
    CatAdds(es[..k], es[k + 1..]);
    forall i, j ensures Differ(fs, i, j) {
      assert Differ(es, if i < k then i else i + 1, if j < k then j else j + 1);
    }
    forall i {:trigger fs[i]} | 0 <= i < |fs| ensures IsEntry(fs[i]) { assert fs[i] == es[if i < k then i else i + 1]; }
  }

  /** Delete entry k, which begins at `env0` and ends at `nxt`. */
  method Delete(data: array<byte>, env0: nat, nxt: nat, ghost es: seq<str>, ghost k: nat)
    requires Holds(data[..], es) && k < |es| && env0 == |Cat(es[..k])| && nxt == env0 + |es[k]|
    modifies data
    ensures Holds(data[..], es[..k] + es[k + 1..])
  {
    EntryAt(data[..], es, k);
    FirstChar(data[..], es, k + 1);
    if data[nxt + 1] == 0 {
      CutLast(data, env0, es, k);
    } else {
      CutInner(data, env0, nxt, es, k);
    }
  }

  /** Another entry: the tail moves down. */
  method CutInner(data: array<byte>, env0: nat, nxt: nat, ghost es: seq<str>, ghost k: nat)
    requires Holds(data[..], es) && k < |es| - 1 && env0 == |Cat(es[..k])| && nxt == env0 + |es[k]|
    modifies data
    ensures Holds(data[..], es[..k] + es[k + 1..])
  {
    ghost var was, rest, t := data[..], es[k + 1..], Image(es[k + 1..]);
    var src := nxt + 1;
    assert src + |t| <= data.Length && data[src..src + |t|] == t by {
      TailAt(was, es, k);
      assert data[src..src + |t|] == was[src..src + |t|];
    }
    TailEntries(es, k);
    var env := ShiftDown(data, env0, src, rest);
    InnerDeleted(was, data[..], es, k);
    env := env + 1;
    data[env] := 0;
  }

  lemma TailEntries(es: seq<str>, k: nat)
    requires Entries(es) && k < |es| - 1
    ensures var rest := es[k + 1..];
      |rest| > 0 && |Image(rest)| >= 3 && forall i {:trigger rest[i]} :: 0 <= i < |rest| ==> IsEntry(rest[i])
  {
    var rest := es[k + 1..];
    assert IsEntry(es[|es| - 1]) && rest[|rest| - 1] == es[|es| - 1];
    ImageNonempty(rest);
  }

  /** The last entry: end the environment where it begins. */
  method CutLast(data: array<byte>, env0: nat, ghost es: seq<str>, ghost k: nat)
    requires Holds(data[..], es) && k == |es| - 1 && env0 == |Cat(es[..k])|
    modifies data
    ensures Holds(data[..], es[..k] + es[k + 1..])
  {
    ghost var was := data[..];
    EntryAt(was, es, k);
    var env := env0;
    if env > 0 {
      env := env - 1;
    } else {
      data[env] := 0;
    }
    env := env + 1;
    data[env] := 0;
    NonemptyPrefix(es, k);
    LastDeleted(was, data[..], es, k);
  }

  lemma NonemptyPrefix(es: seq<str>, k: nat)
    requires k <= |es|
    ensures |Cat(es[..k])| == 0 <==> k == 0
  {}

  lemma LastDeleted(was: str, now: str, es: seq<str>, k: nat)
    requires Holds(was, es) && k == |es| - 1 && |now| == |was| && |Cat(es[..k])| < |was|
    requires var p := |Cat(es[..k])|;
      (forall x {:trigger now[x]} :: 0 <= x < p ==> now[x] == was[x]) && now[p] == 0
      && (p == 0 ==> 1 < |now| && now[1] == 0)
    ensures Holds(now, es[..k] + es[k + 1..])
  {
    var p := |Cat(es[..k])|;
    Without(es, k);
    CatSplit(es, k);
    SliceOf(was, Image(es), 0, p);
    assert es[..k] + es[k + 1..] == es[..k];
    forall x {:trigger now[x]} | 0 <= x < p ensures now[x] == Cat(es[..k])[x] { assert was[x] == was[0..p][x]; }
    if k > 0 { assert |Cat(es[..k])| > 0; }
    Rebuilt(now, es[..k]);
  }

  lemma InnerDeleted(was: str, now: str, es: seq<str>, k: nat)
    requires Holds(was, es) && k < |es| - 1 && Shifted(was, now, |Cat(es[..k])|, Image(es[k + 1..]))
    ensures Holds(now[|Cat(es[..k])| + |Image(es[k + 1..])| - 1 := 0], es[..k] + es[k + 1..])
  {
    var p, t, fs := |Cat(es[..k])|, Image(es[k + 1..]), es[..k] + es[k + 1..];
    Without(es, k);
    CatSplit(es, k);
    SliceOf(was, Image(es), 0, p);
    assert Image(fs) == Cat(es[..k]) + t;
    forall x {:trigger now[x]} | 0 <= x < p ensures now[x] == Cat(es[..k])[x] { assert was[x] == was[0..p][x]; }
    Rebuilt(now[p + |t| - 1 := 0], fs);
  }

  lemma TailAt(data: str, es: seq<str>, k: nat)
    requires Holds(data, es) && k < |es| - 1
    ensures var src, rest := |Cat(es[..k])| + |es[k]| + 1, es[k + 1..];
      src + |Image(rest)| == |Image(es)| <= |data| && data[src..src + |Image(rest)|] == Image(rest)
  {
    CatSplit(es, k);
    var src := |Cat(es[..k])| + |es[k]| + 1;
    SliceOf(data, Image(es), src, |Image(es)|);
  }

  // ----- appending -----

  /** The arguments of setenv: '=' before the first, a space before each of the others. */
  function Joined(args: seq<str>): str {
    if |args| == 0 then [] else Joined(args[..|args| - 1]) + [if |args| == 1 then EQUALS else SPACE] + args[|args| - 1]
  }

  function Definition(name: str, args: seq<str>): str { name + Joined(args) }

  predicate AllNoNul(args: seq<str>) { forall i {:trigger args[i]} :: 0 <= i < |args| ==> NoNul(args[i]) }

  /** Position by position: '=' and the first argument, and then a space and the next argument. */
  lemma {:induction false} JoinedAt(args: seq<str>, i: nat, j: nat)
    requires i < |args| && j <= |args[i]|
    ensures |Joined([])| == 0 && |Joined(args[..i + 1])| == |Joined(args[..i])| + 1 + |args[i]| <= |Joined(args)|
    ensures var k := |Joined(args[..i])| + j;
      Joined(args)[k] == if j > 0 then args[i][j - 1] else if i == 0 then 61 else 32
    decreases |args|
  {
    var n := |args| - 1;
    assert args[..i + 1][..i] == args[..i];
    if i < n {
      JoinedAt(args[..n], i, j);
      assert args[..n][..i] == args[..i] && args[..n][..i + 1] == args[..i + 1];
    } else {
      assert args[..i + 1] == args;
    }
  }

  lemma {:induction false} JoinedShape(args: seq<str>)
    requires AllNoNul(args)
    ensures NoNul(Joined(args)) && (|args| > 0 ==> |Joined(args)| > 0 && Joined(args)[0] == EQUALS)
    decreases |args|
  {
    if |args| > 0 {
      var n := |args| - 1;
      JoinedShape(args[..n]);
      assert NoNul(args[n]);
    }
  }

  lemma {:induction false} EqualsAfterName(name: str, rest: str)
    requires IsName(name) && |rest| > 0 && rest[0] == EQUALS
    ensures Equals(name + rest) == |name|
    decreases |name|
  {
    if |name| > 0 {
      assert (name + rest)[1..] == name[1..] + rest;
      EqualsAfterName(name[1..], rest);
    }
  }

  lemma DefinitionIs(name: str, args: seq<str>)
    requires IsName(name) && AllNoNul(args) && |args| > 0
    ensures var e := Definition(name, args); IsEntry(e) && Key(e) == name && Val(e) == Joined(args)[1..]
  {
    JoinedShape(args);
    EqualsAfterName(name, Joined(args));
  }

  /** Where the next entry goes. */
  method EndOfEntries(data: array<byte>, ghost es: seq<str>) returns (env: nat)
    requires Holds(data[..], es)
    ensures env == |Cat(es)|
  {
    env := 0;
    ImageAt(data[..], es);
    while data[env] != 0 || data[env + 1] != 0
      invariant env <= |Image(es)| - 2
      decreases |Image(es)| - env
    {
      if |es| > 0 { DoubleEnd(es, env); }
      env := env + 1;
    }
    if |es| > 0 { DoubleEnd(es, env); ImageNonempty(es); }
    if env > 0 {
      env := env + 1;
    }
  }

  lemma ImageAt(data: str, es: seq<str>)
    requires Holds(data, es)
    ensures |Image(es)| >= 2 && |Image(es)| == (if |es| == 0 then 2 else |Cat(es)| + 1)
    ensures forall x {:trigger data[x]} :: 0 <= x < |Image(es)| ==> data[x] == Image(es)[x]
    ensures |es| > 0 ==> |Cat(es)| >= 2
  {
    if |es| > 0 { assert IsEntry(es[|es| - 1]); }
    forall x {:trigger data[x]} | 0 <= x < |Image(es)|
      ensures data[x] == Image(es)[x]
    {
      assert data[..|Image(es)|][x] == data[x];
    }
  }

  /** Copy a string with its NUL; the result is where the NUL is. */
  method PutString(data: array<byte>, env0: nat, s: str) returns (env: nat)
    requires env0 + |s| < data.Length && NoNul(s)
    modifies data
    ensures env == env0 + |s| && data[env] == 0 && data[env0..env] == s
    ensures data[..env0] == old(data[..env0])
  {
    var i := 0;
    env := env0;
    data[env] := CharAt(s, i);
    while data[env] != 0
      invariant i <= |s| && env == env0 + i && data[env] == CharAt(s, i)
      invariant data[env0..env] == s[..i] && data[..env0] == old(data[..env0])
      decreases |s| - i
    {
      i, env := i + 1, env + 1;
      data[env] := CharAt(s, i);
    }
  }

  /** A definition and two NULs; nothing else has changed before it. */
  ghost predicate DefinedAt(was: str, now: str, p: nat, e: str) {
    |now| == |was| && p + |e| + 2 <= |now| && now[..p] == was[..p] && now[p..p + |e|] == e && now[p + |e|] == 0
      && now[p + |e| + 1] == 0
  }

  /** Write the definition of `name`, and the second NUL. */
  method PutDefinition(data: array<byte>, env0: nat, name: str, args: seq<str>)
    requires NoNul(name) && AllNoNul(args) && env0 + |Definition(name, args)| + 2 <= data.Length
    modifies data
    ensures DefinedAt(old(data[..]), data[..], env0, Definition(name, args))
  {
    ghost var was := data[..env0];
    JoinedLength(args, 0);
    var env := PutString(data, env0, name);
    for i := 0 to |args|
      invariant env0 <= env < data.Length && PutSoFar(was, data[..], env0, env, Definition(name, args[..i]))
    {
      JoinedLength(args, i + 1);
      DefinitionMore(name, args, i);
      env := PutNext(data, env0, env, was, Definition(name, args[..i]), if i == 0 then EQUALS else SPACE, args[i]);
    }
    assert args[..|args|] == args;
    env := env + 1;
    data[env] := 0;
  }

  /** What has been written so far, and a NUL. */
  ghost predicate PutSoFar(was: str, now: str, env0: nat, env: nat, e: str) {
    env0 <= env < |now| && now[..env0] == was && now[env0..env] == e && now[env] == 0
  }

  method PutNext(data: array<byte>, env0: nat, env: nat, ghost was: str, ghost e: str, sep: byte, arg: str)
    returns (env': nat)
    requires PutSoFar(was, data[..], env0, env, e) && env + 1 + |arg| < data.Length && NoNul(arg)
    modifies data
    ensures env' == env + 1 + |arg| && PutSoFar(was, data[..], env0, env', e + ([sep] + arg))
  {
    ghost var before := data[..env];
    assert before[env0..] == data[..][env0..env] && before[..env0] == data[..][..env0];
    env' := PutArgument(data, env, sep, arg);
    MoreWritten(before, data[..], env0, env, env');
    assert data[..][env..env'] == data[env..env'] && data[..][..env] == data[..env];
  }

  lemma DefinitionMore(name: str, args: seq<str>, i: nat)
    requires i < |args|
    ensures Definition(name, args[..i + 1]) == Definition(name, args[..i])
      + ([if i == 0 then EQUALS else SPACE] + args[i])
  {
    assert args[..i + 1][..i] == args[..i];
  }

  lemma MoreWritten(before: str, now: str, env0: nat, last: nat, env: nat)
    requires env0 <= last <= env <= |now| && before == now[..last]
    ensures now[..env0] == before[..env0] && now[env0..env] == before[env0..last] + now[last..env]
  {}

  /** One separator and one argument. */
  method PutArgument(data: array<byte>, env0: nat, sep: byte, arg: str) returns (env: nat)
    requires env0 + 1 + |arg| < data.Length && NoNul(arg)
    modifies data
    ensures env == env0 + 1 + |arg| && data[env] == 0 && data[..env0] == old(data[..env0])
      && data[env0..env] == [sep] + arg
  {
    ghost var was := data[..env0];
    data[env0] := sep;
    env := PutString(data, env0 + 1, arg);
    assert data[..env0 + 1] == was + [sep];
    assert data[..env0] == data[..env0 + 1][..env0] == was;
    assert data[env0..env] == [data[..env0 + 1][env0]] + data[env0 + 1..env];
  }

  /** The first arguments take no more room than all of them. */
  lemma {:induction false} JoinedLength(args: seq<str>, i: nat)
    requires i <= |args|
    ensures |Joined(args[..i])| <= |Joined(args)|
    ensures i > 0 ==> |Joined(args[..i])| == |Joined(args[..i - 1])| + 1 + |args[i - 1]|
    decreases |args|
  {
    assert i > 0 ==> args[..i][..i - 1] == args[..i - 1];
    if i < |args| {
      var n := |args| - 1;
      JoinedLength(args[..n], i);
      assert args[..n][..i] == args[..i];
    } else {
      assert args[..i] == args;
    }
  }

  lemma Appended(was: str, now: str, es: seq<str>, e: str)
    requires Holds(was, es) && IsEntry(e) && NotBelow(es, Key(e), |es|)
    requires DefinedAt(was, now, |Cat(es)|, e)
    ensures Holds(now, es + [e])
  {
    var fs, p := es + [e], |Cat(es)|;
    assert fs[..|es|] == es;
    ImageAt(was, es);
    assert now[..p] == Cat(es) by { if |es| > 0 { SliceOf(was, Image(es), 0, p); } }
    assert Image(fs) == Cat(es) + e + [0] + [0];
    forall k, l ensures Differ(fs, k, l) { assert Differ(es, k, l); assert 0 <= k < |es| ==> Key(es[k]) != Key(e); }
    forall k {:trigger fs[k]} | 0 <= k < |fs| ensures IsEntry(fs[k]) { assert k < |es| ==> IsEntry(es[k]); }
    InPieces(now, p, |e|);
  }

  lemma InPieces(s: str, p: nat, n: nat)
    requires p + n + 2 <= |s|
    ensures s[..p + n + 2] == s[..p] + s[p..p + n] + [s[p + n]] + [s[p + n + 1]]
  {}

  lemma MoreImage(es: seq<str>, e: str)
    ensures |Image(es + [e])| == |Cat(es)| + |e| + 2
  {
    assert (es + [e])[..|es|] == es;
  }

  /** Append a definition at the end; false if there is no room for it. */
  method Append(data: array<byte>, name: str, args: seq<str>, ghost es: seq<str>) returns (fits: bool)
    requires Holds(data[..], es) && IsName(name) && AllNoNul(args) && |args| > 0 && NotBelow(es, name, |es|)
    modifies data
    ensures fits <==> |Image(es + [Definition(name, args)])| <= data.Length
    ensures if fits then Holds(data[..], es + [Definition(name, args)]) else data[..] == old(data[..])
  {
    ghost var was, e := data[..], Definition(name, args);
    DefinitionIs(name, args);
    MoreImage(es, e);
    var env := EndOfEntries(data, es);
    var len := LengthNeeded(name, args);
    if len > data.Length - env {
      return false;
    }
    PutDefinition(data, env, name, args);
    Appended(was, data[..], es, e);
    fits := true;
  }

  /** "name" + "=" + "val" + "\0\0" */
  method LengthNeeded(name: str, args: seq<str>) returns (len: nat)
    ensures len == |Definition(name, args)| + 2
  {
    len := |name| + 2;
    for i := 0 to |args|
      invariant len == |name| + 2 + |Joined(args[..i])|
    {
      JoinedLength(args, i + 1);
      len := len + |args[i]| + 1;
    }
    assert args[..|args|] == args;
  }
}
