// Shared vocabulary: options, results, and byte strings.
module Basics {
  datatype Option<+T> = None | Some(value: T)

  datatype Result<+T, +E> = Ok(value: T) | Err(error: E)

  // A byte string: each character stands for the byte with the same code.
  type Bytes = string

  // SHA-256, taken to be injective: a digest determines the bytes it was made from.
  datatype Digest = Sha256(preimage: Bytes)

  predicate StartsWith(s: string, prefix: string) {
    prefix <= s
  }

  predicate EndsWith(s: string, suffix: string) {
    |suffix| <= |s| && s[|s| - |suffix|..] == suffix
  }

  // The pattern stands at position i.
  predicate OccursAt(s: string, pat: string, i: nat) {
    i + |pat| <= |s| && forall j :: 0 <= j < |pat| ==> s[i + j] == pat[j]
  }

  // Something outside this model may fail at any time, unless the run is said to be reliable.
  method Faulty(reliable: bool) returns (fault: bool)
    ensures reliable ==> !fault
  {
    fault := *;
    if reliable {
      fault := false;
    }
  }

  lemma Assoc(a: string, b: string, c: string)
    ensures (a + b) + c == a + (b + c)
  {
  }

  lemma SplitPrefix(s: string, prefix: string)
    requires prefix <= s
    ensures s == prefix + s[|prefix|..]
  {
  }

  lemma SliceOfSlice(s: string, i: nat, a: nat, b: nat)
    requires a <= b && i + b <= |s|
    ensures s[i..][a..b] == s[i + a..i + b]
  {
    var t := s[i..][a..b];
    forall k | 0 <= k < b - a ensures t[k] == s[i + a..i + b][k] {
    }
  }

  lemma Uncons(s: string)
    requires s != ""
    ensures s == [s[0]] + s[1..]
  {
  }

  predicate IsSpace(c: char) {
    c == ' ' || c == '\t'
  }

  ghost predicate AllSpace(s: string) {
    forall i :: 0 <= i < |s| ==> IsSpace(s[i])
  }

  // The longest prefix of spaces and tabs.
  function TakeSpace(s: string): (r: string)
    ensures r <= s && AllSpace(r)
    ensures |r| < |s| ==> !IsSpace(s[|r|])
  {
    if s == "" || !IsSpace(s[0]) then "" else [s[0]] + TakeSpace(s[1..])
  }

  function DropSpace(s: string): (r: string)
    ensures TakeSpace(s) + r == s
    ensures r != "" ==> !IsSpace(r[0])
  {
    s[|TakeSpace(s)|..]
  }

  lemma {:induction false} TakeSpaceOf(ws: string, rest: string)
    requires AllSpace(ws)
    requires rest != "" ==> !IsSpace(rest[0])
    ensures TakeSpace(ws + rest) == ws && DropSpace(ws + rest) == rest
  {
    if ws != "" {
      assert (ws + rest)[1..] == ws[1..] + rest;
      TakeSpaceOf(ws[1..], rest);
    } else {
      assert ws + rest == rest;
    }
  }
}
