/** setenv and getenv: the bytes of the environment are a map from names to values. */
module Nvedit {
  import opened Basics
  import opened Environment

  /** CONFIG_ENV_OVERWRITE; and CONFIG_ETHADDR with CONFIG_OVERWRITE_ETHADDR_ONCE. */
  datatype Config = Config(overwrite: bool, defaultEther: Option<str>)

  const SERIAL: str := [115, 101, 114, 105, 97, 108, 35]            // "serial#"
  const ETHADDR: str := [101, 116, 104, 97, 100, 100, 114]          // "ethaddr"
  const STDIN: str := [115, 116, 100, 105, 110]                     // "stdin"
  const STDOUT: str := [115, 116, 100, 111, 117, 116]               // "stdout"
  const STDERR: str := [115, 116, 100, 101, 114, 114]               // "stderr"
  const BAUDRATE: str := [98, 97, 117, 100, 114, 97, 116, 101]      // "baudrate"

  // ----- as a map -----

  ghost function AsMap(es: seq<str>): map<str, str>
    requires forall k {:trigger es[k]} :: 0 <= k < |es| ==> IsEntry(es[k])
  {
    if |es| == 0 then map[] else
      var n := |es| - 1;
      assert IsEntry(es[n]);
      AsMap(es[..n])[Key(es[n]) := Val(es[n])]
  }

  lemma EntriesPrefix(es: seq<str>, n: nat)
    requires Entries(es) && n <= |es|
    ensures Entries(es[..n])
  {
    forall k, l ensures Differ(es[..n], k, l) { assert Differ(es, k, l); }
    forall k {:trigger es[..n][k]} | 0 <= k < n ensures IsEntry(es[..n][k]) { assert es[..n][k] == es[k]; }
  }

  /** The map has what the entries have. */
  lemma {:induction false} MapAt(es: seq<str>, k: nat)
    requires Entries(es) && k < |es|
    ensures Key(es[k]) in AsMap(es) && IsEntry(es[k]) && AsMap(es)[Key(es[k])] == Val(es[k])
    decreases |es|
  {
    var n := |es| - 1;
    assert IsEntry(es[n]);
    if k < n {
      EntriesPrefix(es, n);
      MapAt(es[..n], k);
      assert Differ(es, k, n);
    }
  }

  lemma {:induction false} MapHas(es: seq<str>, name: str)
    requires Entries(es)
    ensures name in AsMap(es) <==> !NotBelow(es, name, |es|)
    decreases |es|
  {
    if |es| > 0 {
      var n := |es| - 1;
      assert IsEntry(es[n]);
      EntriesPrefix(es, n);
      MapHas(es[..n], name);
      if NotBelow(es, name, |es|) {
        forall l {:trigger es[..n][l]} | 0 <= l < n ensures Key(es[..n][l]) != name { assert Key(es[l]) != name; }
        assert NotBelow(es[..n], name, n);
        assert Key(es[n]) != name;
      } else {
        var l :| 0 <= l < |es| && Key(es[l]) == name;
        if l < n { assert Key(es[..n][l]) == name; }
      }
    }
  }

  lemma {:induction false} MapOfConcat(es: seq<str>, fs: seq<str>)
    requires Entries(es + fs)
    ensures Entries(es) && forall k {:trigger fs[k]} :: 0 <= k < |fs| ==> IsEntry(fs[k])
    ensures AsMap(es + fs) == AsMap(es) + AsMap(fs)
    decreases |fs|
  {
    var all := es + fs;
    assert all[..|es|] == es;
    EntriesPrefix(all, |es|);
    forall k {:trigger fs[k]} | 0 <= k < |fs| ensures IsEntry(fs[k]) { assert all[|es| + k] == fs[k]; }
    if |fs| == 0 {
      assert all == es;
    } else {
      var n := |fs| - 1;
      assert all[..|all| - 1] == es + fs[..n] && all[|all| - 1] == fs[n];
      EntriesPrefix(all, |all| - 1);
      MapOfConcat(es, fs[..n]);
      LastMapped(AsMap(es), AsMap(fs[..n]), Key(fs[n]), Val(fs[n]));
    }
  }

  lemma LastMapped(x: map<str, str>, y: map<str, str>, k: str, v: str)
    ensures (x + y)[k := v] == x + y[k := v]
  {}

  lemma EntriesSuffix(es: seq<str>, n: nat)
    requires Entries(es) && n <= |es|
    ensures Entries(es[n..])
  {
    var fs := es[n..];
    forall k, l ensures Differ(fs, k, l) { assert Differ(es, n + k, n + l); }
    forall k {:trigger fs[k]} | 0 <= k < |fs| ensures IsEntry(fs[k]) { assert fs[k] == es[n + k]; }
  }

  /** The name of entry k is not there a second time. */
  lemma NameOnce(es: seq<str>, k: nat)
    requires Entries(es) && k < |es|
    ensures Entries(es[..k]) && Entries(es[k + 1..]) && Key(es[k]) !in AsMap(es[..k])
      && Key(es[k]) !in AsMap(es[k + 1..])
  {
    var before, after, name := es[..k], es[k + 1..], Key(es[k]);
    EntriesPrefix(es, k);
    EntriesSuffix(es, k + 1);
    forall l {:trigger before[l]} | 0 <= l < k ensures Key(before[l]) != name { assert Differ(es, l, k); }
    forall l {:trigger after[l]} | 0 <= l < |after| ensures Key(after[l]) != name { assert Differ(es, k, k + 1 + l); }
    MapHas(before, name);
    MapHas(after, name);
  }

  lemma MapCut(a: map<str, str>, b: map<str, str>, key: str, v: str)
    requires key !in a && key !in b
    ensures a + b == (a[key := v] + b) - {key}
  {}

  /** The map around entry k. */
  lemma MapAround(es: seq<str>, k: nat)
    requires Entries(es) && k < |es|
    ensures Entries(es[..k]) && Entries(es[k + 1..]) && IsEntry(es[k])
    ensures AsMap(es) == AsMap(es[..k])[Key(es[k]) := Val(es[k])] + AsMap(es[k + 1..])
  {
    var first, after := es[..k + 1], es[k + 1..];
    EntriesPrefix(es, k);
    EntriesSuffix(es, k + 1);
    assert es == first + after && first[..k] == es[..k] && first[k] == es[k];
    MapOfConcat(first, after);
  }

  /** Without entry k the map is without its name. */
  lemma MapWithout(es: seq<str>, k: nat)
    requires Entries(es) && k < |es|
    ensures Entries(es[..k] + es[k + 1..]) && AsMap(es[..k] + es[k + 1..]) == AsMap(es) - {Key(es[k])}
  {
    NameOnce(es, k);
    Without(es, k);
    MapOfConcat(es[..k], es[k + 1..]);
    MapAround(es, k);
    MapCut(AsMap(es[..k]), AsMap(es[k + 1..]), Key(es[k]), Val(es[k]));
  }

  lemma WithoutHas(es: seq<str>, k: nat)
    requires Entries(es) && k < |es|
    ensures Entries(es[..k] + es[k + 1..]) && NotBelow(es[..k] + es[k + 1..], Key(es[k]), |es| - 1)
  {
    MapWithout(es, k);
    MapHas(es[..k] + es[k + 1..], Key(es[k]));
  }

  /** A new definition at the end. */
  lemma MapWith(es: seq<str>, e: str)
    requires Entries(es) && IsEntry(e) && NotBelow(es, Key(e), |es|)
    ensures Entries(es + [e]) && AsMap(es + [e]) == AsMap(es)[Key(e) := Val(e)]
  {
    var fs := es + [e];
    assert fs[..|es|] == es;
    forall k, l ensures Differ(fs, k, l) { assert Differ(es, k, l); assert 0 <= k < |es| ==> Key(es[k]) != Key(e); }
    forall k {:trigger fs[k]} | 0 <= k < |fs| ensures IsEntry(fs[k]) { assert k < |es| ==> IsEntry(es[k]); }
  }

  // ----- what setenv does -----

  /** The place of the entry with this name, or -1. */
  function IndexOf(es: seq<str>, name: str): (k: int)
    ensures -1 <= k < |es| && (k == -1 ==> NotBelow(es, name, |es|)) && (k >= 0 ==> Key(es[k]) == name)
  { if |es| == 0 then -1 else if Key(es[|es| - 1]) == name then |es| - 1 else IndexOf(es[..|es| - 1], name) }

  /** The value of an entry. */
  function ValueOf(e: str): str { if Equals(e) < |e| then e[Equals(e) + 1..] else [] }

  /** Variables that can be set only once. */
  predicate Protected(cfg: Config, name: str, oldval: str) {
    !cfg.overwrite && (name == SERIAL
        || (name == ETHADDR && (cfg.defaultEther.None? || oldval != cfg.defaultEther.value)))
  }

  /** Variables whose new value has to be accepted first, by the console or the baud rate table. */
  predicate Checked(name: str) { name == STDIN || name == STDOUT || name == STDERR || name == BAUDRATE }

  /** A call of setenv; `accepted` says whether the check of a checked variable would succeed. */
  datatype Call = Call(name: str, args: seq<str>, accepted: bool)

  predicate IsCall(c: Call) {
    IsName(c.name) && AllNoNul(c.args) && (c.name in {STDIN, STDOUT, STDERR} && |c.args| == 0 ==> !c.accepted)
  }

  predicate Rejected(cfg: Config, es: seq<str>, c: Call) {
    var k := IndexOf(es, c.name);
    k >= 0 && (Protected(cfg, c.name, ValueOf(es[k])) || (Checked(c.name) && !c.accepted))
  }

  /** The entries without this name. */
  function Rest(es: seq<str>, name: str): seq<str> {
    var k := IndexOf(es, name);
    if k >= 0 then es[..k] + es[k + 1..] else es
  }

  lemma RestIs(es: seq<str>, name: str)
    requires Entries(es)
    ensures Entries(Rest(es, name)) && AsMap(Rest(es, name)) == AsMap(es) - {name}
      && NotBelow(Rest(es, name), name, |Rest(es, name)|)
  {
    var k := IndexOf(es, name);
    if k >= 0 {
      RestWithout(es, name, k);
    } else {
      MapHas(es, name);
      assert AsMap(es) - {name} == AsMap(es);
    }
  }

  lemma RestWithout(es: seq<str>, name: str, k: nat)
    requires Entries(es) && k < |es| && Key(es[k]) == name
    ensures var rest := es[..k] + es[k + 1..];
      Entries(rest) && AsMap(rest) == AsMap(es) - {name} && NotBelow(rest, name, |rest|)
  {
    MapWithout(es, k);
    WithoutHas(es, k);
  }

  /** The entries after the call, and what it returns. */
  datatype Outcome = Outcome(entries: seq<str>, rc: int)

  function After(cfg: Config, size: nat, es: seq<str>, c: Call): Outcome {
    var rest := Rest(es, c.name);
    if Rejected(cfg, es, c) then Outcome(es, 1)
    else if |c.args| == 0 then Outcome(rest, 0)
    else if |Image(rest + [Definition(c.name, c.args)])| <= size then Outcome(rest + [Definition(c.name, c.args)], 0)
    else Outcome(rest, 1)      // overflow: the old definition is gone
  }

  lemma MapReplace(m: map<str, str>, k: str, v: str)
    ensures (m - {k})[k := v] == m[k := v]
  {}

  /** With the new definition instead of the old one. */
  lemma Redefined(es: seq<str>, c: Call)
    requires Entries(es) && IsCall(c) && |c.args| > 0
    ensures var fs := Rest(es, c.name) + [Definition(c.name, c.args)];
      Entries(fs) && AsMap(fs) == AsMap(es)[c.name := Joined(c.args)[1..]]
  {
    RestIs(es, c.name);
    DefinitionIs(c.name, c.args);
    MapWith(Rest(es, c.name), Definition(c.name, c.args));
    MapReplace(AsMap(es), c.name, Joined(c.args)[1..]);
  }

  /** setenv is map update; or removal, or nothing. */
  lemma AfterIsUpdate(cfg: Config, size: nat, es: seq<str>, c: Call)
    requires Entries(es) && IsCall(c)
    ensures var o := After(cfg, size, es, c);
      && Entries(o.entries)
      && (o.rc == 0 ==>
          AsMap(o.entries) == if |c.args| == 0 then AsMap(es) - {c.name} else AsMap(es)[c.name := Joined(c.args)[1..]])
      && (o.rc != 0 ==> AsMap(o.entries) == if Rejected(cfg, es, c) then AsMap(es) else AsMap(es) - {c.name})
  {
    RestIs(es, c.name);
    if |c.args| > 0 { Redefined(es, c); }
  }

  // ----- variables that are written once -----

  function Run(cfg: Config, size: nat, es: seq<str>, calls: seq<Call>): seq<str> {
    if |calls| == 0 then es else After(cfg, size, Run(cfg, size, es, calls[..|calls| - 1]), calls[|calls| - 1]).entries
  }

  lemma FixedOnce(cfg: Config, size: nat, es: seq<str>, c: Call, name: str)
    requires Entries(es) && IsCall(c) && name in AsMap(es) && Protected(cfg, name, AsMap(es)[name])
    ensures Entries(After(cfg, size, es, c).entries) && name in AsMap(After(cfg, size, es, c).entries)
      && AsMap(After(cfg, size, es, c).entries)[name] == AsMap(es)[name]
  {
    AfterIsUpdate(cfg, size, es, c);
    if c.name == name { NamedEntry(es, name); }
  }

  lemma NamedEntry(es: seq<str>, name: str)
    requires Entries(es) && name in AsMap(es)
    ensures IndexOf(es, name) >= 0 && IsEntry(es[IndexOf(es, name)])
      && AsMap(es)[name] == ValueOf(es[IndexOf(es, name)])
  {
    MapHas(es, name);
    MapAt(es, IndexOf(es, name));
  }

  /** A call is refused for a variable that is defined, and only for these: serial# and ethaddr, as far as they can be
      set only once, and stdin, stdout, stderr and baudrate, if the new value is not accepted. */
  lemma RefusedIf(cfg: Config, es: seq<str>, c: Call)
    requires Entries(es) && IsCall(c)
    ensures Rejected(cfg, es, c) ==> c.name in AsMap(es)
    ensures c.name in AsMap(es) ==> (Rejected(cfg, es, c) <==> (
              || (!cfg.overwrite && c.name == [115, 101, 114, 105, 97, 108, 35])
              || (!cfg.overwrite && c.name == [101, 116, 104, 97, 100, 100, 114]
                  && (cfg.defaultEther.None? || AsMap(es)[c.name] != cfg.defaultEther.value))
              || (!c.accepted && c.name == [115, 116, 100, 105, 110])
              || (!c.accepted && c.name == [115, 116, 100, 111, 117, 116])
              || (!c.accepted && c.name == [115, 116, 100, 101, 114, 114])
              || (!c.accepted && c.name == [98, 97, 117, 100, 114, 97, 116, 101])))
  {
    MapHas(es, c.name);
    if c.name in AsMap(es) { NamedEntry(es, c.name); }
  }

  /** Other calls fail only if the definition does not fit. */
  lemma FailsIf(cfg: Config, size: nat, es: seq<str>, c: Call)
    requires Entries(es) && IsCall(c)
    ensures After(cfg, size, es, c).rc == 0 || After(cfg, size, es, c).rc == 1
    ensures Rejected(cfg, es, c) ==> After(cfg, size, es, c) == Outcome(es, 1)
    ensures !Rejected(cfg, es, c) ==>
      (After(cfg, size, es, c).rc == 1 <==>
        |c.args| > 0 && size < |Cat(Rest(es, c.name))| + |c.name| + |Joined(c.args)| + 2)
  {
    var rest, def := Rest(es, c.name), Definition(c.name, c.args);
    CatAdds(rest, [def]);
    CatOne(def);
  }

  /** Whatever is set, deleted or overflows, without CONFIG_ENV_OVERWRITE: `serial#` once there stays, and so does
      `ethaddr` unless it has its default value. */
  lemma {:induction false} WrittenOnce(cfg: Config, size: nat, es: seq<str>, calls: seq<Call>, name: str)
    requires Entries(es) && (forall i {:trigger calls[i]} :: 0 <= i < |calls| ==> IsCall(calls[i]))
    requires !cfg.overwrite && name in AsMap(es)
    requires name == [115, 101, 114, 105, 97, 108, 35] || (name == [101, 116, 104, 97, 100, 100, 114]
        && (cfg.defaultEther.None? || AsMap(es)[name] != cfg.defaultEther.value))
    ensures Entries(Run(cfg, size, es, calls)) && name in AsMap(Run(cfg, size, es, calls))
      && AsMap(Run(cfg, size, es, calls))[name] == AsMap(es)[name]
    decreases |calls|
  {
    if |calls| > 0 {
      var n := |calls| - 1;
      assert IsCall(calls[n]);
      WrittenOnce(cfg, size, es, calls[..n], name);
      FixedOnce(cfg, size, Run(cfg, size, es, calls[..n]), calls[n], name);
    }
  }

  // ----- helpers of the methods -----

  lemma NameIs(name: str)
    requires IsName(name)
    ensures NameOf(name) == name
  {}

  lemma RestIsWithout(es: seq<str>, name: str, k: nat)
    requires IndexOf(es, name) == k < |es|
    ensures Rest(es, name) == es[..k] + es[k + 1..]
  {}

  lemma RestIsSame(es: seq<str>, name: str)
    requires IndexOf(es, name) == -1
    ensures Rest(es, name) == es
  {}

  lemma FoundIndex(es: seq<str>, name: str, oldval: int, k: nat)
    requires Entries(es) && (oldval < 0 ==> NotBelow(es, name, |es|))
      && (oldval >= 0 ==> k < |es| && Key(es[k]) == name)
    ensures IndexOf(es, name) == if oldval >= 0 then k else -1
  {
    var i := IndexOf(es, name);
    if oldval >= 0 {
      assert Key(es[k]) == name;
      assert Differ(es, i, k) && Differ(es, k, i);
    }
  }

  lemma ValueAt(data: str, es: seq<str>, k: nat)
    requires Holds(data, es) && k < |es|
    ensures StringAt(data, |Cat(es[..k])| + |Key(es[k])| + 1, ValueOf(es[k]))
  {
    var p, e := |Cat(es[..k])|, es[k];
    EntryAt(data, es, k);
    assert IsEntry(e);
    ValueStands(data, p, e);
  }

  lemma ValueStands(data: str, p: nat, e: str)
    requires StringAt(data, p, e) && IsEntry(e)
    ensures StringAt(data, p + |Key(e)| + 1, ValueOf(e))
  {
    var a := Equals(e) + 1;
    assert |Key(e)| + 1 == a && ValueOf(e) == e[a..];
    StringTail(data, p, e, a);
  }

  lemma StringTail(data: str, q: nat, e: str, a: nat)
    requires a <= |e| && StringAt(data, q, e)
    ensures StringAt(data, q + a, e[a..])
  {
    forall i | 0 <= i < |e| - a
      ensures data[q + a..q + |e|][i] == e[a..][i]
    {
      assert data[q..q + |e|][a + i] == e[a + i];
    }
  }

  /** strcmp with the default value. */
  method SameValue(data: array<byte>, i: nat, cfg: Config, ghost v: str) returns (same: bool)
    requires StringAt(data[..], i, v) && (cfg.defaultEther.Some? ==> NoNul(cfg.defaultEther.value))
    ensures same <==> cfg.defaultEther.Some? && v == cfg.defaultEther.value
  {
    if cfg.defaultEther.None? {
      return false;
    }
    same := SameString(data, i, cfg.defaultEther.value, v);
  }

  method SameString(data: array<byte>, i: nat, d: str, ghost v: str) returns (same: bool)
    requires StringAt(data[..], i, v) && NoNul(d)
    ensures same <==> v == d
  {
    StringChars(data[..], i, v);
    var j := 0;
    while CharAt(d, j) != 0 && data[i + j] == CharAt(d, j)
      invariant j <= |d| && j <= |v| && d[..j] == v[..j]
      decreases |d| - j
    {
      j := j + 1;
    }
    same := data[i + j] == CharAt(d, j);
  }

  // ----- the environment in memory -----

  class Env {
    const cfg: Config
    const data: array<byte>
    const crc32: seq<byte> -> nat
    var crc: nat
    ghost var entries: seq<str>

    ghost predicate Valid()
      reads this, data
    { Holds(data[..], entries) && (cfg.defaultEther.Some? ==> NoNul(cfg.defaultEther.value)) }

    ghost function Contents(): map<str, str>
      requires Valid()
      reads this, data
    { AsMap(entries) }

    /** An environment that is in memory already. */
    constructor (cfg: Config, data: array<byte>, crc32: seq<byte> -> nat, crc: nat, ghost es: seq<str>)
      requires Holds(data[..], es) && (cfg.defaultEther.Some? ==> NoNul(cfg.defaultEther.value))
      ensures Valid() && entries == es && this.data == data && this.cfg == cfg && this.crc32 == crc32 && this.crc == crc
    {
      this.cfg, this.data, this.crc32, this.crc, entries := cfg, data, crc32, crc, es;
    }

    /** setenv. The result is 1 if nothing was set. */
    method Setenv(c: Call) returns (rc: int)
      requires Valid() && IsCall(c)
      modifies this, data
      ensures Valid() && Outcome(entries, rc) == After(cfg, data.Length, old(entries), c)
      ensures rc == 0 ==> crc == crc32(data[..])
      ensures rc != 0 ==> crc == old(crc)
      ensures Rejected(cfg, old(entries), c) ==> data[..] == old(data[..])
    {
      var rejected := Clear(c);
      if rejected {
        return 1;
      }
      if |c.args| == 0 {
        crc := crc32(data[..]);
        return 0;
      }
      RestIs(old(entries), c.name);
      var fits := Append(data, c.name, c.args, entries);
      if !fits {
        return 1;
      }
      entries := entries + [Definition(c.name, c.args)];
      crc := crc32(data[..]);
      rc := 0;
    }

    /** Find the variable and delete it, unless it must not be overwritten. */
    method Clear(c: Call) returns (rejected: bool)
      requires Valid() && IsCall(c)
      modifies this`entries, data
      ensures Valid() && rejected == Rejected(cfg, old(entries), c)
      ensures if rejected then data[..] == old(data[..]) && entries == old(entries)
        else entries == Rest(old(entries), c.name)
    {
      var oldval, env, nxt;
      ghost var k;
      NameIs(c.name);
      oldval, env, nxt, k := Find(data, c.name, entries);
      FoundIndex(entries, c.name, oldval, k);
      rejected := false;
      if oldval >= 0 {
        rejected := Refuse(c, oldval, k);
        if !rejected {
          Delete(data, env, nxt, entries, k);
          RestIsWithout(entries, c.name, k);
          entries := entries[..k] + entries[k + 1..];
        }
      } else {
        RestIsSame(entries, c.name);
      }
    }

    /** The reasons not to touch a variable. */
    method Refuse(c: Call, oldval: nat, ghost k: nat) returns (rejected: bool)
      requires Valid() && IsCall(c) && k < |entries| && IndexOf(entries, c.name) == k
        && oldval == |Cat(entries[..k])| + |Key(entries[k])| + 1
      ensures rejected == Rejected(cfg, entries, c)
    {
      ValueAt(data[..], entries, k);
      var same := SameValue(data, oldval, cfg, ValueOf(entries[k]));
      if !cfg.overwrite && (c.name == SERIAL || (c.name == ETHADDR && !same)) {
        return true;
      }
      rejected := Checked(c.name) && !c.accepted;
    }

    /** getenv: where the value is, or -1. */
    method Getenv(s1: str) returns (r: int)
      requires Valid() && NoNul(s1)
      ensures r >= 0 <==> NameOf(s1) in Contents()
      ensures r >= 0 ==> StringAt(data[..], r, Contents()[NameOf(s1)])
    {
      var env, nxt;
      ghost var k;
      r, env, nxt, k := Find(data, s1, entries);
      MapHas(entries, NameOf(s1));
      if r >= 0 {
        ValueFound(data[..], entries, k, NameOf(s1), r);
      }
    }
  }

  lemma NameMapped(es: seq<str>, k: nat, name: str, v: str)
    requires Entries(es) && k < |es| && Key(es[k]) == name && v == ValueOf(es[k])
    ensures name in AsMap(es) && AsMap(es)[name] == v
  {
    MapAt(es, k);
  }

  lemma ValueFound(data: str, es: seq<str>, k: nat, name: str, r: int)
    requires Holds(data, es) && k < |es| && Key(es[k]) == name && r == |Cat(es[..k])| + |Key(es[k])| + 1
    ensures name in AsMap(es) && StringAt(data, r, AsMap(es)[name])
  {
    NameMapped(es, k, name, ValueOf(es[k]));
    ValueAt(data, es, k);
  }

  // ----- in all its bytes -----

  lemma ExampleImage(def: str)
    requires def == Definition([97], [[98], [99]])
    ensures Image([def]) == [97, 61, 98, 32, 99, 0, 0] && Rest([], [97]) + [def] == [def]
  {
    var none: seq<str>, b: str, c: str := [], [98], [99];
    var one, two := [b], [b, c];
    assert two[..1] == one && one[..0] == none;
    assert Joined(none) == [] && Joined(one) == Joined(none) + [61] + b && Joined(two) == Joined(one) + [32] + c;
    assert def == [97, 61, 98, 32, 99];
    CatOne(def);
    assert none + [def] == [def];
  }

  /** "setenv a b c", with nothing defined before. */
  method SetenvExample(e: Env) returns (rc: int)
    requires e.Valid() && e.entries == [] && e.data.Length >= 7
    modifies e, e.data
    ensures rc == 0 && e.data[..7] == [97, 61, 98, 32, 99, 0, 0]
  {
    var c := Call([97], [[98], [99]], true);
    ExampleImage(Definition([97], [[98], [99]]));
    rc := e.Setenv(c);
    assert e.data[..7] == e.data[..][..7];
  }
}
