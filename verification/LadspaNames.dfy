/** Name lookup in the LADSPA engine: case-insensitive, by prefix for effects and ports. */
module LadspaNames {

  function Lower(c: char): char {
    if 'A' <= c <= 'Z' then (c as int + 32) as char else c
  }

  /** strcasecmp(a, b) == 0 */
  predicate SameName(a: string, b: string) {
    |a| == |b| && forall i :: 0 <= i < |a| ==> Lower(a[i]) == Lower(b[i])
  }

  /** strncasecmp(full, name, strlen(name)) == 0 */
  predicate HasPrefix(full: string, name: string) {
    |name| <= |full| && SameName(full[..|name|], name)
  }

  // ---------- Effects ----------

  /** Index of the first effect whose name starts with `name`, or the number of effects. */
  function FindEffect(names: seq<string>, name: string): (k: nat)
    ensures k <= |names|
    ensures k < |names| ==> HasPrefix(names[k], name)
    ensures forall i :: 0 <= i < k ==> !HasPrefix(names[i], name)
  {
    if names == [] then 0
    else if HasPrefix(names[0], name) then 0
    else 1 + FindEffect(names[1..], name)
  }

  /** An effect is found under its own name exactly when that name is no prefix of the name of an
      effect added before it. */
  lemma EffectFoundByName(names: seq<string>, k: nat)
    requires k < |names|
    ensures FindEffect(names, names[k]) == k <==> forall i :: 0 <= i < k ==> !HasPrefix(names[i], names[k])
  {
    assert names[k][..|names[k]|] == names[k];
    assert HasPrefix(names[k], names[k]);
  }

  /** An effect "reverb" added after an effect "reverb stereo" is out of reach: its own name finds the
      other one. */
  lemma EffectOutOfReach()
    ensures FindEffect(["reverb stereo", "reverb"], "reverb") == 0
    ensures forall name :: FindEffect(["reverb stereo", "reverb"], name) != 1
  {
    var names := ["reverb stereo", "reverb"];
    assert names[0][..6] == names[1];
    forall name ensures FindEffect(names, name) != 1 {
      if HasPrefix(names[1], name) {
        PrefixOfPrefix(names[0], names[1], name);
      }
    }
  }

  lemma PrefixOfPrefix(full: string, part: string, name: string)
    requires HasPrefix(full, part) && HasPrefix(part, name)
    ensures HasPrefix(full, name)
  {
  }

  // ---------- Ports ----------

  /** Index of the first port called exactly `name`, or the number of ports. */
  function FirstExact(names: seq<string>, name: string): (k: nat)
    ensures k <= |names|
    ensures k < |names| ==> SameName(names[k], name)
    ensures forall i :: 0 <= i < k ==> !SameName(names[i], name)
  {
    if names == [] then 0
    else if SameName(names[0], name) then 0
    else 1 + FirstExact(names[1..], name)
  }

  /** The ports among the first n that only start with `name`, in order. */
  function Partials(names: seq<string>, name: string, n: nat): (s: seq<nat>)
    requires n <= |names|
    ensures forall i :: i in s <==> 0 <= i < n && HasPrefix(names[i], name) && |names[i]| != |name|
  {
    if n == 0 then []
    else if HasPrefix(names[n - 1], name) && |names[n - 1]| != |name| then Partials(names, name, n - 1) + [n - 1]
    else Partials(names, name, n - 1)
  }

  /** The port a name resolves to, or -1. */
  function ResolvePort(names: seq<string>, name: string): (r: int)
    ensures -1 <= r < |names|
    ensures r != -1 ==> HasPrefix(names[r], name)
  {
    var e := FirstExact(names, name);
    var p := Partials(names, name, e);
    assert e < |names| ==> names[e][..|name|] == names[e];
    if |p| >= 2 then -1
    else if e < |names| then e
    else if p == [] then -1
    else assert p[0] in p; p[0]
  }

  /** The documented result: an exact match, or else the only port that starts with the name. */
  function DocumentedPort(names: seq<string>, name: string): int {
    var e := FirstExact(names, name);
    var p := Partials(names, name, |names|);
    if e < |names| then e else if |p| == 1 then p[0] else -1
  }

  /** The lookup keeps its documented promise unless two ports that merely start with the name
      come before the first exact match. */
  lemma PortLookupAsDocumented(names: seq<string>, name: string)
    ensures ResolvePort(names, name) == DocumentedPort(names, name) <==>
            (FirstExact(names, name) < |names| ==> |Partials(names, name, FirstExact(names, name))| < 2)
  {
  }

  /** The lookup loop. */
  method GetEffectPortIdx(names: seq<string>, name: string) returns (r: int)
    ensures r == ResolvePort(names, name)
  {
    r := -1;
    var i := 0;
    while i < |names|
      invariant 0 <= i <= |names|
      invariant i <= FirstExact(names, name)
      invariant var p := Partials(names, name, i); |p| <= 1 && r == if p == [] then -1 else p[0]
    {
      if HasPrefix(names[i], name) {
        if |names[i]| == |name| {
          assert names[i][..|name|] == names[i];
          return i;
        }
        if r != -1 {
          PartialsGrow(names, name, i + 1, FirstExact(names, name));
          return -1;
        }
        r := i;
      } else {
        assert !SameName(names[i], name) by {
          assert names[i][..|names[i]|] == names[i];
        }
      }
      i := i + 1;
    }
  }

  lemma {:induction false} PartialsGrow(names: seq<string>, name: string, m: nat, n: nat)
    requires m <= n <= |names|
    ensures |Partials(names, name, m)| <= |Partials(names, name, n)|
    decreases n
  {
    hide HasPrefix;
    if m < n {
      PartialsGrow(names, name, m, n - 1);
    }
  }

  /** Asking for "gain" on a plugin with the ports "gain left", "gain right" and "gain" fails,
      although the third port is an exact match. */
  lemma ExactMatchMissed()
    ensures ResolvePort(["gain left", "gain right", "gain"], "gain") == -1
    ensures DocumentedPort(["gain left", "gain right", "gain"], "gain") == 2
  {
    var names, name := ["gain left", "gain right", "gain"], "gain";
    assert names[0][..4] == name && names[1][..4] == name;
    assert HasPrefix(names[0], name) && HasPrefix(names[1], name);
    assert |Partials(names, name, 0)| == 0;
    assert |Partials(names, name, 1)| == 1;
    assert |Partials(names, name, 2)| == 2;
    assert FirstExact(names, name) == 2 by {
      assert !SameName(names[0], name) && !SameName(names[1], name) && SameName(names[2], name);
    }
  }
}
