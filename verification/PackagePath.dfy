/** Installed-package paths: the parser's normal form and the path hierarchy. */
module PackagePath {
  import opened Core
  import opened DigestText

  const SLASH: Byte := 47
  const DOT: Bytes := [46]
  const DOTDOT: Bytes := [46, 46]

  predicate Forbidden(c: Byte) { c == 0 || c == 10 || c == 13 }

  predicate Clean(s: Bytes) { forall i :: 0 <= i < |s| ==> !Forbidden(s[i]) }

  function Split(s: Bytes): (r: seq<Bytes>)
    ensures |r| > 0
    decreases |s|
  {
    var k := Find(s, SLASH, 0);
    if k == |s| then [s] else [s[..k]] + Split(s[k + 1..])
  }

  function Join(cs: seq<Bytes>): Bytes {
    if cs == [] then []
    else if |cs| == 1 then cs[0]
    else cs[0] + [SLASH] + Join(cs[1..])
  }

  /** Components that count: empty and `.` components are skipped. */
  function Filter(cs: seq<Bytes>): seq<Bytes> {
    if cs == [] then []
    else if cs[0] == [] || cs[0] == DOT then Filter(cs[1..])
    else [cs[0]] + Filter(cs[1..])
  }

  predicate Good(c: Bytes) { c != [] && c != DOT && c != DOTDOT }

  function Parse(s: Bytes): Option<Bytes> {
    if s == [] || s[0] == SLASH || !Clean(s) then None
    else if DOTDOT in Split(s) then None
    else if Filter(Split(s)) == [] then None
    else Some(Join(Filter(Split(s))))
  }

  /** The normal form: a nonempty `/`-separated list of good components. */
  predicate IsPath(t: Bytes) {
    Clean(t) && forall c :: c in Split(t) ==> Good(c)
  }

  // ---- splitting and joining -------------------------------------------

  lemma {:induction false} SplitAtSlash(a: Bytes, b: Bytes)
    ensures Split(a + [SLASH] + b) == Split(a) + Split(b)
    decreases |a|
  {
    var s := a + [SLASH] + b;
    var k := Find(a, SLASH, 0);
    if k == |a| {
      assert s[k] == SLASH && forall i :: 0 <= i < k ==> s[i] == a[i];
      assert Find(s, SLASH, 0) == k;
      assert s[..k] == a && s[k + 1..] == b;
    } else {
      assert s[k] == a[k];
      assert forall i :: 0 <= i < k ==> s[i] == a[i];
      assert Find(s, SLASH, 0) == k;
      assert s[..k] == a[..k] && s[k + 1..] == a[k + 1..] + [SLASH] + b;
      SplitAtSlash(a[k + 1..], b);
      assert [a[..k]] + (Split(a[k + 1..]) + Split(b)) == [a[..k]] + Split(a[k + 1..]) + Split(b);
    }
  }

  lemma {:induction false} SplitPieces(s: Bytes)
    ensures Join(Split(s)) == s
    ensures forall c :: c in Split(s) ==> SLASH !in c && forall x :: x in c ==> x in s
    decreases |s|
  {
    var k := Find(s, SLASH, 0);
    if k < |s| {
      SplitPieces(s[k + 1..]);
      assert s == s[..k] + [SLASH] + s[k + 1..];
    }
  }

  lemma {:induction false} SplitJoin(cs: seq<Bytes>)
    requires cs != [] && forall c :: c in cs ==> SLASH !in c
    ensures Split(Join(cs)) == cs
  {
    assert cs[0] in cs;
    if |cs| == 1 {
      assert Find(cs[0], SLASH, 0) == |cs[0]|;
      assert cs == [cs[0]];
    } else {
      SplitJoin(cs[1..]);
      SplitAtSlash(cs[0], Join(cs[1..]));
      assert Find(cs[0], SLASH, 0) == |cs[0]|;
      assert cs == [cs[0]] + cs[1..];
    }
  }

  lemma {:induction false} JoinAppend(a: seq<Bytes>, b: seq<Bytes>)
    requires a != [] && b != []
    ensures Join(a + b) == Join(a) + [SLASH] + Join(b)
  {
    if |a| == 1 {
      assert (a + b)[1..] == b;
    } else {
      JoinAppend(a[1..], b);
      assert (a + b)[1..] == a[1..] + b;
      assert a[0] + [SLASH] + (Join(a[1..]) + [SLASH] + Join(b)) == a[0] + [SLASH] + Join(a[1..]) + [SLASH] + Join(b);
    }
  }

  lemma {:induction false} FilterKeeps(cs: seq<Bytes>)
    ensures forall c :: c in Filter(cs) <==> c in cs && c != [] && c != DOT
    ensures (forall c :: c in cs ==> c != [] && c != DOT) ==> Filter(cs) == cs
  {
    if cs != [] {
      FilterKeeps(cs[1..]);
      assert cs == [cs[0]] + cs[1..];
      if forall c :: c in cs ==> c != [] && c != DOT {
        assert cs[0] in cs;
        assert forall c :: c in cs[1..] ==> c in cs;
      }
    }
  }

  lemma {:induction false} FilterAppend(a: seq<Bytes>, b: seq<Bytes>)
    ensures Filter(a + b) == Filter(a) + Filter(b)
  {
    if a == [] {
      assert a + b == b;
    } else {
      assert (a + b)[1..] == a[1..] + b;
      FilterAppend(a[1..], b);
    }
  }

  lemma {:induction false} JoinBytes(cs: seq<Bytes>)
    ensures forall x :: x in Join(cs) ==> x == SLASH || exists c :: c in cs && x in c
  {
    if |cs| > 1 { JoinBytes(cs[1..]); }
  }

  // ---- the parser's normal form ----------------------------------------

  /** The normal form is exactly what the parser returns unchanged. */
  lemma IsPathIsFixed(t: Bytes)
    ensures IsPath(t) <==> Parse(t) == Some(t)
  {
    SplitPieces(t);
    FilterKeeps(Split(t));
    if IsPath(t) {
      assert Good(Split(t)[0]);
      var k := Find(t, SLASH, 0);
      assert Split(t)[0] == t[..k];
    }
    if Parse(t) == Some(t) {
      SplitJoin(Filter(Split(t)));
    }
  }

  /** Every accepted text has the normal form whose components are the text's
      own, with the empty and `.` ones left out. */
  lemma ParseNormalizes(s: Bytes)
    requires Parse(s).Some?
    ensures IsPath(Parse(s).value)
    ensures Split(Parse(s).value) == Filter(Split(s))
    ensures Parse(Parse(s).value) == Parse(s)
  {
    var t := Parse(s).value;
    SplitPieces(s);
    FilterKeeps(Split(s));
    SplitJoin(Filter(Split(s)));
    JoinBytes(Filter(Split(s)));
    forall i | 0 <= i < |t| ensures !Forbidden(t[i]) {
      assert t[i] in t;
      if t[i] != SLASH {
        var c :| c in Filter(Split(s)) && t[i] in c;
        assert t[i] in s;
      }
    }
    IsPathIsFixed(t);
  }

  /** Exactly which texts are accepted: relative, without forbidden bytes, without a
      `..` component and with some component that counts. */
  lemma ParseAccepts(s: Bytes)
    ensures Parse(s).Some?
       <==> && s != [] && s[0] != SLASH
            && 0 !in s && 10 !in s && 13 !in s
            && DOTDOT !in Split(s)
            && exists c :: c in Split(s) && c != [] && c != DOT
  {
    FilterKeeps(Split(s));
    if Filter(Split(s)) != [] {
      assert Filter(Split(s))[0] in Filter(Split(s));
    }
    assert Clean(s) <==> 0 !in s && 10 !in s && 13 !in s;
  }

  lemma {:induction false} FilterShortens(cs: seq<Bytes>)
    ensures |Join(Filter(cs))| <= |Join(cs)|
  {
    if cs != [] {
      FilterShortens(cs[1..]);
      var kept := Filter(cs[1..]);
      assert ([cs[0]] + kept)[1..] == kept;
    }
  }

  /** Normalizing never lengthens a path. */
  lemma ParseShortens(s: Bytes)
    ensures Parse(s).Some? ==> |Parse(s).value| <= |s|
  {
    FilterShortens(Split(s));
    SplitPieces(s);
  }

  /** Two accepted texts name the same path iff they have the same components. */
  lemma SamePath(a: Bytes, b: Bytes)
    requires Parse(a).Some? && Parse(b).Some?
    ensures Parse(a) == Parse(b) <==> Filter(Split(a)) == Filter(Split(b))
  {
    ParseNormalizes(a);
    ParseNormalizes(b);
  }

  /** What the scanning loop knows after the components `seen`. */
  ghost predicate Scanned(input: Bytes, begin: nat, seen: seq<Bytes>, components: seq<Bytes>) {
    && begin <= |input|
    && Split(input) == seen + Split(input[begin..])
    && components == Filter(seen)
    && DOTDOT !in seen
  }

  lemma {:induction false} ScanStep(input: Bytes, begin: nat, end: nat, seen: seq<Bytes>, components: seq<Bytes>)
    requires Scanned(input, begin, seen, components) && end == Find(input, SLASH, begin)
    ensures var c := input[begin..end];
            var cs := if c == [] || c == DOT then components else components + [c];
            if c == DOTDOT then DOTDOT in Split(input)
            else if end < |input| then Scanned(input, end + 1, seen + [c], cs)
            else Split(input) == seen + [c] && DOTDOT !in Split(input) && cs == Filter(Split(input))
  {
    hide Split, Filter;
    var c := input[begin..end];
    SplitFrom(input, begin, end);
    FilterOne(seen, c);
    assert c in Split(input[begin..]);
    if end < |input| {
      assert seen + ([c] + Split(input[end + 1..])) == seen + [c] + Split(input[end + 1..]);
    }
  }

  /** The scanning loop: the components that count, None on `..`. */
  method Scan(input: Bytes) returns (r: Option<seq<Bytes>>)
    ensures r == if DOTDOT in Split(input) then None else Some(Filter(Split(input)))
  {
    assert Filter([]) == [];
    hide Split, Filter;
    var components: seq<Bytes> := [];
    var begin := 0;
    ghost var seen: seq<Bytes> := [];
    assert input[0..] == input;
    while true
      invariant Scanned(input, begin, seen, components)
      decreases |input| - begin
    {
      var end := Find(input, SLASH, begin);
      var component := input[begin..end];
      ScanStep(input, begin, end, seen, components);
      if component != [] && component != DOT {
        if component == DOTDOT {
          return None;
        }
        components := components + [component];
      }
      if end == |input| {
        return Some(components);
      }
      seen := seen + [component];
      begin := end + 1;
    }
  }

  lemma FindFrom(s: Bytes, c: Byte, begin: nat)
    requires begin <= |s|
    ensures begin + Find(s[begin..], c, 0) == Find(s, c, begin)
  {
    var left, k := s[begin..], Find(s[begin..], c, 0);
    assert forall i :: begin <= i < begin + k ==> s[i] == left[i - begin];
  }

  lemma {:induction false} SplitFrom(s: Bytes, begin: nat, end: nat)
    requires begin <= |s| && end == Find(s, SLASH, begin)
    ensures Split(s[begin..]) == if end == |s| then [s[begin..end]] else [s[begin..end]] + Split(s[end + 1..])
  {
    hide Find;
    FindFrom(s, SLASH, begin);
    var left := s[begin..];
    assert s[begin..end] == left[..end - begin];
    if end < |s| {
      assert left[end - begin + 1..] == s[end + 1..];
    } else {
      assert left == s[begin..end];
    }
  }

  lemma FilterOne(cs: seq<Bytes>, c: Bytes)
    ensures Filter(cs + [c]) == if c == [] || c == DOT then Filter(cs) else Filter(cs) + [c]
  {
    FilterAppend(cs, [c]);
    assert Filter([c]) == if c == [] || c == DOT then [] else [c];
  }

  method ParsePath(input: Bytes) returns (r: Option<Bytes>)
    ensures r == Parse(input)
  {
    if input == [] || input[0] == SLASH || !Clean(input) {
      return None;
    }
    var components :- Scan(input);
    if components == [] {
      return None;
    }
    var normalized: Bytes := [];
    for i := 0 to |components|
      invariant normalized == Join(components[..i])
    {
      assert components[..i + 1] == components[..i] + [components[i]];
      if i != 0 {
        JoinAppend(components[..i], [components[i]]);
        normalized := normalized + [SLASH];
      }
      normalized := normalized + components[i];
    }
    assert components[..|components|] == components;
    return Some(normalized);
  }

  // ---- the hierarchy ----------------------------------------------------

  /** std::string::rfind; |s| stands for npos. */
  function FindLast(s: Bytes, c: Byte): (r: nat)
    ensures r <= |s|
    ensures r < |s| ==> s[r] == c && c !in s[r + 1..]
    ensures r == |s| ==> c !in s
  {
    if s == [] then 0
    else if s[|s| - 1] == c then |s| - 1
    else
      var k := FindLast(s[..|s| - 1], c);
      if k == |s| - 1 then |s| else k
  }

  function Filename(t: Bytes): Bytes {
    var k := FindLast(t, SLASH);
    if k == |t| then t else t[k + 1..]
  }

  function Parent(t: Bytes): Option<Bytes> {
    var k := FindLast(t, SLASH);
    if k == |t| then None else Some(t[..k])
  }

  predicate IsAncestorOf(a: Bytes, b: Bytes) {
    |b| > |a| && b[..|a|] == a && b[|a|] == SLASH
  }

  /** All the paths that iterating `Parent` reaches; it terminates. */
  function ParentChain(t: Bytes): seq<Bytes>
    decreases |t|
  {
    match Parent(t)
    case None => []
    case Some(p) => [p] + ParentChain(p)
  }

  /** The parent of a path is a path, with the last component taken off, and
      parent and filename rebuild the path. */
  lemma ParentRestores(t: Bytes)
    requires IsPath(t)
    ensures Parent(t).None? <==> |Split(t)| == 1
    ensures Filename(t) == Split(t)[|Split(t)| - 1]
    ensures Parent(t).Some? ==>
              && IsPath(Parent(t).value)
              && Split(Parent(t).value) == Split(t)[..|Split(t)| - 1]
              && t == Parent(t).value + [SLASH] + Filename(t)
  {
    var k := FindLast(t, SLASH);
    if k < |t| {
      var p, f := t[..k], t[k + 1..];
      assert t == p + [SLASH] + f;
      SplitAtSlash(p, f);
      assert Find(f, SLASH, 0) == |f|;
      assert Split(f) == [f];
      assert Split(p) == Split(t)[..|Split(t)| - 1];
    } else {
      assert Find(t, SLASH, 0) == |t|;
    }
  }

  /** The byte test for ancestry is the proper-prefix relation of components. */
  lemma {:induction false} AncestorIsPrefix(a: Bytes, b: Bytes)
    requires IsPath(a) && IsPath(b)
    ensures IsAncestorOf(a, b) <==> Split(a) < Split(b)
  {
    hide Split, Join, Find;
    if IsAncestorOf(a, b) {
      assert b == a + [SLASH] + b[|a| + 1..];
      SplitAtSlash(a, b[|a| + 1..]);
    }
    if Split(a) < Split(b) {
      var tail := Split(b)[|Split(a)|..];
      assert Split(b) == Split(a) + tail;
      SplitPieces(a);
      SplitPieces(b);
      JoinAppend(Split(a), tail);
    }
  }

  /** Ancestors are exactly the paths reached by iterating `Parent`. */
  lemma {:induction false} AncestorIsInChain(a: Bytes, b: Bytes)
    requires IsPath(a) && IsPath(b)
    ensures IsAncestorOf(a, b) <==> a in ParentChain(b)
    decreases |b|
  {
    hide Split, Join, IsAncestorOf, IsPath, Parent;
    ParentRestores(b);
    AncestorIsPrefix(a, b);
    if Parent(b).Some? {
      var p := Parent(b).value;
      AncestorIsInChain(a, p);
      AncestorIsPrefix(a, p);
      var n := |Split(b)| - 1;
      assert Split(b) == Split(p) + [Split(b)[n]];
      SplitPieces(a);
      SplitPieces(p);
      if Split(a) < Split(b) && |Split(a)| == n {
        assert Split(a) == Split(b)[..n];
      }
    }
  }
}
