/**
  RPC names and service names (codec/message_impl.go): the hand-written scanner that
  stands in for a regular expression, and the split of a service name into parts.
 */
module RpcNames {
  /** The character occurs nowhere in s[from..to]. */
  predicate Absent(s: string, c: char, from: nat, to: nat)
    requires from <= to <= |s|
  {
    forall k | from <= k < to :: s[k] != c
  }

  /** `strings.Index` for a single character: the first position, or -1. */
  function Index(s: string, c: char): (i: int)
    ensures -1 <= i < |s|
    ensures i == -1 ==> Absent(s, c, 0, |s|)
    ensures i >= 0 ==> s[i] == c && Absent(s, c, 0, i)
  {
    IndexFrom(s, c, 0)
  }

  function IndexFrom(s: string, c: char, from: nat): (i: int)
    requires from <= |s|
    ensures i == -1 || from <= i < |s|
    ensures i == -1 ==> Absent(s, c, from, |s|)
    ensures i >= 0 ==> s[i] == c && Absent(s, c, from, i)
    decreases |s| - from
  {
    if from == |s| then -1
    else if s[from] == c then from
    else IndexFrom(s, c, from + 1)
  }

  /** `strings.LastIndex` for a single character. */
  function LastIndex(s: string, c: char): (i: int)
    ensures -1 <= i < |s|
    ensures i == -1 ==> Absent(s, c, 0, |s|)
    ensures i >= 0 ==> s[i] == c && Absent(s, c, i + 1, |s|)
  {
    LastIndexBefore(s, c, |s|)
  }

  function LastIndexBefore(s: string, c: char, to: nat): (i: int)
    requires to <= |s|
    ensures -1 <= i < to
    ensures i == -1 ==> Absent(s, c, 0, to)
    ensures i >= 0 ==> s[i] == c && Absent(s, c, i + 1, to)
  {
    if to == 0 then -1
    else if s[to - 1] == c then to - 1
    else LastIndexBefore(s, c, to - 1)
  }

  /** `strings.Count` for a single character. */
  function Count(s: string, c: char): nat {
    if s == "" then 0 else (if s[0] == c then 1 else 0) + Count(s[1..], c)
  }

  function MethodFromRPCName(s: string): string {
    s[LastIndex(s, '/') + 1..]
  }

  /** The scanner, test by test. */
  predicate RpcNameIsTRPCForm(s: string) {
    if |s| == 0 then false
    else if s[0] != '/' then false
    else
      var firstDot := Index(s[1..], '.');
      if firstDot == -1 || firstDot == 0 then false
      else if '/' in s[1..1 + firstDot] then false
      else
        var secondSlash := Index(s[1 + firstDot..], '/');
        if secondSlash == -1 || secondSlash == 1 then false
        else if 1 + firstDot + secondSlash == |s| - 1 then false
        else
          var rest := s[1 + firstDot + secondSlash + 1..];
          !('/' in rest || '.' in rest)
  }

  /** The language of the regular expression ^/[^/.]+\.[^/]+/[^/.]+$, as a decomposition. */
  ghost predicate Matches(s: string, package: string, service: string, rpc: string) {
    && s == "/" + package + "." + service + "/" + rpc
    && package != "" && '/' !in package && '.' !in package
    && service != "" && '/' !in service
    && rpc != "" && '/' !in rpc && '.' !in rpc
  }

  /** Where a character first and last occurs, given the text on either side of it. */
  lemma IndexAt(pre: string, c: char, post: string)
    ensures c !in pre ==> Index(pre + [c] + post, c) == |pre|
    ensures c !in post ==> LastIndex(pre + [c] + post, c) == |pre|
  {
    var s := pre + [c] + post;
    assert s[|pre|] == c;
    assert forall k | 0 <= k < |pre| :: s[k] == pre[k];
    assert forall k | |pre| < k < |s| :: s[k] == post[k - |pre| - 1];
  }

  /** Whatever matches has its first dot and its slashes where the scanner looks. */
  lemma MatchPositions(s: string, package: string, service: string, rpc: string)
    requires Matches(s, package, service, rpc)
    ensures |s| == 3 + |package| + |service| + |rpc| && s[0] == '/'
    ensures Index(s[1..], '.') == |package|
    ensures Index(s[1 + |package|..], '/') == 1 + |service|
    ensures LastIndex(s, '/') == 2 + |package| + |service|
    ensures s[1..1 + |package|] == package
    ensures s[3 + |package| + |service|..] == rpc
  {
    var back := service + "/" + rpc;
    assert s[1..] == package + ['.'] + back;
    IndexAt(package, '.', back);
    assert s[1 + |package|..] == ("." + service) + ['/'] + rpc;
    IndexAt("." + service, '/', rpc);
    var front := "/" + package + "." + service;
    assert s == front + ['/'] + rpc;
    IndexAt(front, '/', rpc);
  }

  /** The parts the scanner finds in an accepted string. */
  lemma ScannerFinds(s: string) returns (package: string, service: string, rpc: string)
    requires RpcNameIsTRPCForm(s)
    ensures Matches(s, package, service, rpc)
  {
    var d := Index(s[1..], '.');
    var k := Index(s[1 + d..], '/');
    package, service, rpc := s[1..1 + d], s[2 + d..1 + d + k], s[2 + d + k..];
    assert s[1 + d] == s[1..][d] == '.';
    assert s[1 + d + k] == s[1 + d..][k] == '/';
    assert k > 1;
    assert '.' !in package by {
      assert forall i | 0 <= i < d :: package[i] == s[1..][i];
    }
    assert '/' !in service by {
      assert forall i | 0 <= i < k - 1 :: service[i] == s[1 + d..][i + 1];
    }
    Split(s, 1, 1 + d, 1 + d + k);
  }

  /** A string cut at the positions of its first slash, its dot and its second slash. */
  lemma Split(s: string, a: nat, dot: nat, slash: nat)
    requires 1 == a <= dot < slash < |s|
    requires s[0] == '/' && s[dot] == '.' && s[slash] == '/'
    ensures s == "/" + s[a..dot] + "." + s[dot + 1..slash] + "/" + s[slash + 1..]
  {
  }

  /** The scanner accepts exactly the language of the regular expression. */
  lemma ScannerIsRegex(s: string)
    ensures RpcNameIsTRPCForm(s) <==> exists p, v, r :: Matches(s, p, v, r)
  {
    if RpcNameIsTRPCForm(s) {
      var p, v, r := ScannerFinds(s);
    }
    forall p, v, r | Matches(s, p, v, r)
      ensures RpcNameIsTRPCForm(s)
    {
      MatchPositions(s, p, v, r);
    }
  }

  /** The decomposition of a string is unique and its last part is what MethodFromRPCName returns. */
  lemma DecompositionUnique(s: string, p: string, v: string, r: string, p': string, v': string, r': string)
    requires Matches(s, p, v, r) && Matches(s, p', v', r')
    ensures p == p' && v == v' && r == r'
    ensures MethodFromRPCName(s) == r
  {
    MatchPositions(s, p, v, r);
    MatchPositions(s, p', v', r');
    assert v == s[2 + |p|..2 + |p| + |v|];
    assert v' == s[2 + |p'|..2 + |p'| + |v'|];
  }

  /** Service names: app, server and service, skipping the leading section of a four-section name. */
  function AppServerService(s: string): (r: (string, string, string)) {
    if Count(s, '.') >= 3 then BehindPrefix(s) else FromStart(s)
  }

  function BehindPrefix(s: string): (r: (string, string, string))
    requires Count(s, '.') >= 3
  {
    var tail := AfterDot(s);
    var back := AfterDot(tail);
    CountAfterDot(s);
    CountAfterDot(tail);
    CountAfterDot(back);
    (tail[..Index(tail, '.')], back[..Index(back, '.')], AfterDot(back))
  }

  function FromStart(s: string): (r: (string, string, string)) {
    var i := Index(s, '.');
    if i == -1 then (s, "", "")
    else
      var tail := s[i + 1..];
      var j := Index(tail, '.');
      if j == -1 then (s[..i], tail, "")
      else (s[..i], tail[..j], tail[j + 1..])
  }

  /** What follows the first dot; all of the string if there is none. */
  function AfterDot(s: string): string {
    s[Index(s, '.') + 1..]
  }

  lemma {:induction false} CountConcat(a: string, b: string, c: char)
    ensures Count(a + b, c) == Count(a, c) + Count(b, c)
  {
    if a == "" {
      assert a + b == b;
    } else {
      assert (a + b)[1..] == a[1..] + b;
      CountConcat(a[1..], b, c);
    }
  }

  lemma {:induction false} CountNone(a: string, c: char)
    requires Absent(a, c, 0, |a|)
    ensures Count(a, c) == 0
  {
    if a != "" {
      CountNone(a[1..], c);
    }
  }

  /** A counted dot is found, and one fewer remains behind it. */
  lemma CountAfterDot(s: string)
    ensures Count(s, '.') == 0 <==> Index(s, '.') == -1
    ensures Index(s, '.') >= 0 ==> Count(AfterDot(s), '.') == Count(s, '.') - 1
  {
    var i := Index(s, '.');
    if i == -1 {
      CountNone(s, '.');
    } else {
      assert s == s[..i] + (['.'] + s[i + 1..]);
      CountNone(s[..i], '.');
      CountConcat(s[..i], ['.'] + s[i + 1..], '.');
      assert (['.'] + s[i + 1..])[1..] == s[i + 1..];
    }
  }

  lemma DotSplits(pre: string, post: string)
    requires '.' !in pre
    ensures Index(pre + "." + post, '.') == |pre|
    ensures (pre + "." + post)[..|pre|] == pre
    ensures AfterDot(pre + "." + post) == post
  {
    IndexAt(pre, '.', post);
  }

  /** A name with at least four sections splits after the first; the last part keeps further dots. */
  lemma FourSections(prefix: string, app: string, server: string, service: string)
    requires '.' !in prefix && '.' !in app && '.' !in server
    ensures AppServerService(prefix + "." + (app + "." + (server + "." + service))) == (app, server, service)
  {
    var u := server + "." + service;
    var t := app + "." + u;
    var s := prefix + "." + t;
    DotSplits(prefix, t);
    DotSplits(app, u);
    DotSplits(server, service);
    CountAfterDot(s);
    CountAfterDot(t);
    CountAfterDot(u);
  }

  /** Shorter names: the sections there are, in order, and nothing skipped. */
  lemma OneSection(app: string)
    requires '.' !in app
    ensures AppServerService(app) == (app, "", "")
  {
    CountNone(app, '.');
    assert Count(app, '.') == 0 && Index(app, '.') == -1;
  }

  lemma TwoSections(app: string, server: string)
    requires '.' !in app && '.' !in server
    ensures AppServerService(app + "." + server) == (app, server, "")
  {
    DotSplits(app, server);
    CountAfterDot(app + "." + server);
    CountAfterDot(server);
  }

  lemma ThreeSections(app: string, server: string, service: string)
    requires '.' !in app && '.' !in server && '.' !in service
    ensures AppServerService(app + "." + (server + "." + service)) == (app, server, service)
  {
    var t := server + "." + service;
    DotSplits(app, t);
    DotSplits(server, service);
    CountAfterDot(app + "." + t);
    CountAfterDot(t);
    CountAfterDot(service);
  }
}
