/** Reassembly of the capture stream: the bytes a sniffer sends arrive in
    arbitrary chunks; complete JSON objects are the brace-delimited stubs
    `\{[^{}]+\}` found in the carried-over rest plus the new chunk, and whatever
    is left after deleting them is carried over to the next chunk. */
module Stubs {
  import opened Wrappers
  import opened Builtins

  predicate IsBrace(c: char) {
    c == '{' || c == '}'
  }

  /** A match of `\{[^{}]+\}`: an opening brace, at least one character that is
      not a brace, and a closing brace. */
  predicate IsStub(m: string) {
    |m| >= 3 && m[0] == '{' && m[|m| - 1] == '}' && forall i :: 0 < i < |m| - 1 ==> !IsBrace(m[i])
  }

  /** The first brace of s at or after k, or |s| when there is none. */
  function NextBrace(s: string, k: nat): (j: nat)
    requires k <= |s|
    ensures k <= j <= |s|
    ensures forall i :: k <= i < j ==> !IsBrace(s[i])
    ensures j < |s| ==> IsBrace(s[j])
    decreases |s| - k
  {
    if k == |s| || IsBrace(s[k]) then k else NextBrace(s, k + 1)
  }

  /** The length of the stub s starts with, when it starts with one; there is at
      most one, since its body cannot contain a brace. */
  function StubPrefix(s: string): (n: Option<nat>)
    ensures n.Some? ==> n.value <= |s| && IsStub(s[..n.value])
    ensures n.None? ==> forall k :: 0 < k <= |s| ==> !IsStub(s[..k])
  {
    if s == [] || s[0] != '{' then None
    else
      var j := NextBrace(s, 1);
      if j < |s| && s[j] == '}' && j >= 2 then
        assert forall i :: 0 < i < j ==> s[..j + 1][i] == s[i];
        Some(j + 1)
      else
        assert forall k :: 0 < k <= |s| && IsStub(s[..k]) ==> k - 1 == j by {
          forall k | 0 < k <= |s| && IsStub(s[..k]) ensures k - 1 == j {
            assert s[..k][k - 1] == s[k - 1];
          }
        }
        None
  }

  /** re.findall(r'(\{[^{}]+\})', s): the leftmost matches, left to right,
      scanning on after the end of each. */
  function FindStubs(s: string): (ms: seq<string>)
    ensures forall i :: 0 <= i < |ms| ==> IsStub(ms[i])
    decreases |s|
  {
    if s == [] then []
    else match StubPrefix(s)
      case Some(n) => [s[..n]] + FindStubs(s[n..])
      case None => FindStubs(s[1..])
  }

  function Concat(ms: seq<string>): string {
    if ms == [] then [] else ms[0] + Concat(ms[1..])
  }

  /** for match in matches: rest = rest.replace(match, '') */
  function RemoveEach(s: string, ms: seq<string>): string
    requires forall i :: 0 <= i < |ms| ==> IsStub(ms[i])
    decreases |ms|
  {
    if ms == [] then s else
      assert IsStub(ms[0]);
      RemoveEach(RemoveAll(s, ms[0]), ms[1..])
  }

  /** The stubs of ss other than those listed in ms, in order. */
  function Keep(ss: seq<string>, ms: seq<string>): seq<string> {
    if ss == [] then [] else (if ss[0] in ms then [] else [ss[0]]) + Keep(ss[1..], ms)
  }

  // ---------------------------------------------------------------------------
  // Scanning
  // ---------------------------------------------------------------------------

  lemma StubStart(m: string, rest: string)
    requires IsStub(m)
    ensures StubPrefix(m + rest) == Some(|m|)
  {
    var s := m + rest;
    assert forall i :: 0 < i < |m| - 1 ==> s[i] == m[i];
    NextBraceAt(s, 1, |m| - 1);
    assert s[..|m|] == m;
  }

  lemma {:induction false} NextBraceAt(s: string, k: nat, j: nat)
    requires k <= j < |s| && IsBrace(s[j])
    requires forall i :: k <= i < j ==> !IsBrace(s[i])
    ensures NextBrace(s, k) == j
    decreases j - k
  {
    if k < j {
      NextBraceAt(s, k + 1, j);
    }
  }

  /** A chunk holding no closing brace holds no complete stub. */
  lemma {:induction false} NoStubWithoutClose(s: string)
    requires '}' !in s
    ensures FindStubs(s) == []
    decreases |s|
  {
    if s != [] {
      NoStubWithoutClose(s[1..]);
    }
  }

  /** Complete stubs followed by an unfinished one are found exactly. */
  lemma {:induction false} FindStubsOfConcat(ss: seq<string>, tail: string)
    requires forall i :: 0 <= i < |ss| ==> IsStub(ss[i])
    requires '}' !in tail
    ensures FindStubs(Concat(ss) + tail) == ss
  {
    if ss == [] {
      assert Concat(ss) + tail == tail;
      NoStubWithoutClose(tail);
    } else {
      var rest := Concat(ss[1..]) + tail;
      assert Concat(ss) + tail == ss[0] + rest;
      StubStart(ss[0], rest);
      assert (ss[0] + rest)[..|ss[0]|] == ss[0];
      assert (ss[0] + rest)[|ss[0]|..] == rest;
      FindStubsOfConcat(ss[1..], tail);
    }
  }

  // ---------------------------------------------------------------------------
  // Deleting the matches
  // ---------------------------------------------------------------------------

  /** A prefix without an opening brace is kept by the deletion of a stub. */
  lemma {:induction false} RemoveAllSkipsPrefix(x: string, y: string, p: string)
    requires IsStub(p) && '{' !in x
    ensures RemoveAll(x + y, p) == x + RemoveAll(y, p)
    decreases |x|
  {
    if x != [] {
      var s := x + y;
      assert s[0] == x[0];
      if |s| >= |p| {
        assert s[..|p|] != p by { assert s[..|p|][0] == x[0]; }
      } else {
        assert |y| < |p|;
      }
      assert s[1..] == x[1..] + y;
      assert '{' !in x[1..] by { assert forall c :: c in x[1..] ==> c in x; }
      RemoveAllSkipsPrefix(x[1..], y, p);
    } else {
      assert x + y == y;
    }
  }

  /** Two stubs where one is a prefix of the other are the same stub. */
  lemma StubPrefixUnique(t: string, rest: string, p: string)
    requires IsStub(t) && IsStub(p) && |p| <= |t + rest| && (t + rest)[..|p|] == p
    ensures p == t
  {
    var s := t + rest;
    var n := if |p| < |t| then |p| else |t|;
    assert s[..|p|][n - 1] == p[n - 1];
    assert s[n - 1] == t[n - 1];
    assert |p| == |t|;
    assert s[..|p|] == t;
  }

  /** Deleting a stub from a leading stub removes it when equal and keeps it
      otherwise. */
  lemma RemoveAllStub(t: string, rest: string, p: string)
    requires IsStub(t) && IsStub(p)
    ensures RemoveAll(t + rest, p) == (if t == p then [] else t) + RemoveAll(rest, p)
  {
    if t == p {
      var s := t + rest;
      assert s[..|p|] == p;
      assert s[|p|..] == rest;
    } else {
      RemoveAllOtherStub(t, rest, p);
    }
  }

  lemma RemoveAllOtherStub(t: string, rest: string, p: string)
    requires IsStub(t) && IsStub(p) && t != p
    ensures RemoveAll(t + rest, p) == t + RemoveAll(rest, p)
  {
    var s := t + rest;
    NoOtherStubAtStart(t, rest, p);
    RemoveAllNoMatch(s, p);
    NoOpenAfterStart(t);
    assert s[1..] == t[1..] + rest;
    RemoveAllSkipsPrefix(t[1..], rest, p);
    ConsTail(t, RemoveAll(rest, p));
  }

  lemma NoOtherStubAtStart(t: string, rest: string, p: string)
    requires IsStub(t) && IsStub(p) && t != p
    ensures !(|t + rest| >= |p| && (t + rest)[..|p|] == p)
  {
    if |t + rest| >= |p| && (t + rest)[..|p|] == p {
      StubPrefixUnique(t, rest, p);
    }
  }

  lemma NoOpenAfterStart(t: string)
    requires IsStub(t)
    ensures '{' !in t[1..]
  {
    forall i | 0 <= i < |t[1..]| ensures t[1..][i] != '{' {
      assert t[1..][i] == t[i + 1];
    }
  }

  lemma RemoveAllNoMatch(s: string, p: string)
    requires |p| > 0 && s != [] && !(|s| >= |p| && s[..|p|] == p)
    ensures RemoveAll(s, p) == [s[0]] + RemoveAll(s[1..], p)
  {
  }

  lemma ConsTail(t: string, r: string)
    requires t != []
    ensures [t[0]] + (t[1..] + r) == t + r
  {
    assert t == [t[0]] + t[1..];
  }

  lemma {:induction false} RemoveAllConcat(ss: seq<string>, p: string)
    requires forall i :: 0 <= i < |ss| ==> IsStub(ss[i])
    requires IsStub(p)
    ensures RemoveAll(Concat(ss), p) == Concat(Keep(ss, [p]))
  {
    if ss != [] {
      RemoveAllStub(ss[0], Concat(ss[1..]), p);
      RemoveAllConcat(ss[1..], p);
      ConcatAppend(if ss[0] in [p] then [] else [ss[0]], Keep(ss[1..], [p]));
    }
  }

  lemma {:induction false} ConcatAppend(a: seq<string>, b: seq<string>)
    ensures Concat(a + b) == Concat(a) + Concat(b)
  {
    if a != [] {
      assert (a + b)[1..] == a[1..] + b;
      ConcatAppend(a[1..], b);
    } else {
      assert a + b == b;
    }
  }

  lemma {:induction false} KeepStubs(ss: seq<string>, ms: seq<string>)
    requires forall i :: 0 <= i < |ss| ==> IsStub(ss[i])
    ensures forall i :: 0 <= i < |Keep(ss, ms)| ==> IsStub(Keep(ss, ms)[i])
    ensures forall x :: x in Keep(ss, ms) ==> x in ss && x !in ms
  {
    if ss != [] {
      KeepStubs(ss[1..], ms);
    }
  }

  lemma {:induction false} KeepKeep(ss: seq<string>, m: string, ms: seq<string>)
    ensures Keep(Keep(ss, [m]), ms) == Keep(ss, [m] + ms)
  {
    if ss != [] {
      KeepKeep(ss[1..], m, ms);
      assert ss[0] in [m] + ms <==> ss[0] == m || ss[0] in ms;
      if ss[0] != m {
        var k := Keep(ss, [m]);
        assert k == [ss[0]] + Keep(ss[1..], [m]);
        assert k[0] == ss[0] && k[1..] == Keep(ss[1..], [m]);
        calc {
          Keep(k, ms);
          (if ss[0] in ms then [] else [ss[0]]) + Keep(Keep(ss[1..], [m]), ms);
          (if ss[0] in [m] + ms then [] else [ss[0]]) + Keep(ss[1..], [m] + ms);
          Keep(ss, [m] + ms);
        }
      } else {
        assert Keep(ss, [m]) == Keep(ss[1..], [m]);
        assert Keep(ss, [m] + ms) == Keep(ss[1..], [m] + ms);
      }
    }
  }

  /** Deleting a list of stubs, one after the other, from a run of stubs leaves
      the run's other stubs, in order. */
  lemma {:induction false} RemoveEachConcat(ss: seq<string>, ms: seq<string>)
    requires forall i :: 0 <= i < |ss| ==> IsStub(ss[i])
    requires forall i :: 0 <= i < |ms| ==> IsStub(ms[i])
    ensures RemoveEach(Concat(ss), ms) == Concat(Keep(ss, ms))
    decreases |ms|
  {
    if ms == [] {
      KeepNone(ss);
    } else {
      RemoveAllConcat(ss, ms[0]);
      KeepStubs(ss, [ms[0]]);
      RemoveEachConcat(Keep(ss, [ms[0]]), ms[1..]);
      KeepKeep(ss, ms[0], ms[1..]);
      assert [ms[0]] + ms[1..] == ms;
    }
  }

  lemma {:induction false} KeepNone(ss: seq<string>)
    ensures Keep(ss, []) == ss
  {
    if ss != [] {
      KeepNone(ss[1..]);
    }
  }

  lemma {:induction false} KeepAll(ss: seq<string>, ms: seq<string>)
    requires forall x :: x in ss ==> x in ms
    ensures Keep(ss, ms) == []
  {
    if ss != [] {
      assert ss[0] in ss;
      KeepAll(ss[1..], ms);
    }
  }

  /** A tail without a closing brace is carried over untouched. */
  lemma {:induction false} RemoveEachKeepsTail(x: string, tail: string, ms: seq<string>)
    requires forall i :: 0 <= i < |ms| ==> IsStub(ms[i])
    requires '}' !in tail
    ensures RemoveEach(x + tail, ms) == RemoveEach(x, ms) + tail
    decreases |ms|
  {
    if ms != [] {
      RemoveAllKeepsTail(x, tail, ms[0]);
      RemoveEachKeepsTail(RemoveAll(x, ms[0]), tail, ms[1..]);
    }
  }

  /** Reassembly: when the carried-over rest plus the new chunk is a run of
      complete stubs followed by an unfinished one, the stubs come out in order
      and exactly the unfinished one is carried over. */
  lemma Reassembly(ss: seq<string>, tail: string)
    requires forall i :: 0 <= i < |ss| ==> IsStub(ss[i])
    requires '}' !in tail
    ensures FindStubs(Concat(ss) + tail) == ss
    ensures RemoveEach(Concat(ss) + tail, ss) == tail
  {
    FindStubsOfConcat(ss, tail);
    RemoveEachKeepsTail(Concat(ss), tail, ss);
    RemoveEachConcat(ss, ss);
    KeepAll(ss, ss);
  }
}
