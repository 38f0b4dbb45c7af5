/** String helpers shared by the tag parser and the path arithmetic. */
module Text {

  datatype Option<+T> = None | Some(value: T)

  /** Index of the first `c` in `s`, or `|s|` when there is none (strings.Index). */
  function Find(s: string, c: char): (i: nat)
    ensures i <= |s|
    ensures i < |s| ==> s[i] == c
    ensures c !in s[..i]
    ensures i == |s| <==> c !in s
  {
    if s == "" || s[0] == c then 0 else
      assert s[..1 + Find(s[1..], c)] == [s[0]] + s[1..][..Find(s[1..], c)];
      1 + Find(s[1..], c)
  }

  /** strings.Split for a one-character separator: always at least one part. */
  function Split(s: string, c: char): (parts: seq<string>)
    ensures |parts| >= 1
    ensures forall p :: p in parts ==> c !in p
    decreases |s|
  {
    var i := Find(s, c);
    if i == |s| then [s] else [s[..i]] + Split(s[i + 1..], c)
  }

  /** Parts separated by `c`, the printer that Split undoes. */
  function Join(parts: seq<string>, c: char): string
    requires |parts| >= 1
  {
    if |parts| == 1 then parts[0] else parts[0] + [c] + Join(parts[1..], c)
  }

  /** The first separator ends a separator-free prefix. */
  lemma {:induction false} FindAfter(p: string, c: char, rest: string)
    requires c !in p
    ensures Find(p + [c] + rest, c) == |p|
  {
    if p != "" {
      assert (p + [c] + rest)[1..] == p[1..] + [c] + rest;
      FindAfter(p[1..], c, rest);
    }
  }

  lemma {:induction false} SplitJoin(parts: seq<string>, c: char)
    requires |parts| >= 1
    requires forall p :: p in parts ==> c !in p
    ensures Split(Join(parts, c), c) == parts
  {
    if |parts| > 1 {
      var rest := Join(parts[1..], c);
      var s := Join(parts, c);
      FindAfter(parts[0], c, rest);
      assert s == parts[0] + [c] + rest;
      assert s[..|parts[0]|] == parts[0] && s[|parts[0]| + 1..] == rest;
      SplitJoin(parts[1..], c);
    } else {
      assert parts == [parts[0]];
    }
  }

  /** The text after the last slash. */
  function LastSegment(s: string): string {
    if s == "" || s[|s| - 1] == '/' then "" else LastSegment(s[..|s| - 1]) + [s[|s| - 1]]
  }

  /** `r` is the end of `s` behind its last slash. */
  predicate IsLast(s: string, r: string) {
    |r| <= |s| && r == s[|s| - |r|..] && '/' !in r && (|r| == |s| || s[|s| - |r| - 1] == '/')
  }

  lemma {:induction false} LastSegmentIs(s: string)
    ensures IsLast(s, LastSegment(s))
  {
    if s != "" && s[|s| - 1] != '/' {
      var init, c := s[..|s| - 1], s[|s| - 1];
      LastSegmentIs(init);
      LastSnoc(init, LastSegment(init), c);
      assert s == init + [c];
    }
  }

  lemma LastSnoc(s: string, r: string, c: char)
    requires IsLast(s, r) && c != '/'
    ensures IsLast(s + [c], r + [c])
  {
  }

  function TrimSlashes(s: string): string {
    if s != "" && s[|s| - 1] == '/' then TrimSlashes(s[..|s| - 1]) else s
  }

  /** filepath.Base. */
  function Base(s: string): string {
    if s == "" then "." else
      var t := TrimSlashes(s);
      if t == "" then "/" else LastSegment(t)
  }

  /** There is only one last segment. */
  lemma SameSegment(s: string, b: string)
    requires IsLast(s, b)
    ensures LastSegment(s) == b
  {
    LastSegmentIs(s);
    var a := LastSegment(s);
    assert |a| < |s| ==> s[|s| - |a| - 1] !in s[|s| - |a|..];
    assert |b| < |s| ==> s[|s| - |b| - 1] !in s[|s| - |b|..];
  }

  lemma RootedBase(b: string)
    requires b != "" && '/' !in b
    ensures Base("/" + b) == b
  {
    var r := "/" + b;
    assert b[|b| - 1] in b && r[|r| - 1] == b[|b| - 1];
    assert TrimSlashes(r) == r;
    assert r[1..] == b;
    SameSegment(r, b);
  }

  /** A name below a device directory is its own base. */
  lemma BaseOfRooted(s: string)
    ensures Base("/" + Base(s)) == Base(s)
  {
    BaseIs(s);
    if s == "" {
      RootedBase(".");
    } else if exists c :: c in s && c != '/' {
      RootedBase(Base(s));
    } else {
      BaseIs("//");
      assert "/" + "/" == "//";
    }
  }

  lemma {:induction false} TrimmedLast(s: string)
    ensures TrimSlashes(s) == "" || TrimSlashes(s)[|TrimSlashes(s)| - 1] != '/'
  {
    if s != "" && s[|s| - 1] == '/' {
      TrimmedLast(s[..|s| - 1]);
    }
  }

  lemma {:induction false} TrimmedIs(s: string)
    ensures |TrimSlashes(s)| <= |s| && TrimSlashes(s) == s[..|TrimSlashes(s)|]
    ensures forall k :: |TrimSlashes(s)| <= k < |s| ==> s[k] == '/'
  {
    if s != "" && s[|s| - 1] == '/' {
      TrimmedIs(s[..|s| - 1]);
    }
  }

  /** What filepath.Base computes: "." for the empty text, "/" for one of slashes only, and otherwise
      the last piece between slashes, with nothing but slashes after it. */
  lemma BaseIs(s: string)
    ensures s == "" ==> Base(s) == "."
    ensures s != "" && (forall c :: c in s ==> c == '/') ==> Base(s) == "/"
    ensures (exists c :: c in s && c != '/') ==>
              exists i, j :: 0 <= i < j <= |s| && Base(s) == s[i..j] && '/' !in s[i..j]
                && (i == 0 || s[i - 1] == '/') && forall k :: j <= k < |s| ==> s[k] == '/'
  {
    var t := TrimSlashes(s);
    TrimmedIs(s);
    TrimmedLast(s);
    if exists c :: c in s && c != '/' {
      var k :| 0 <= k < |s| && s[k] != '/';
      assert k < |t|;
      LastSegmentIs(t);
      var i := |t| - |LastSegment(t)|;
      assert Base(s) == s[i..|t|];
    } else {
      forall k | 0 <= k < |s| ensures s[k] == '/' {
        assert s[k] in s;
      }
    }
  }

  /** A name without slashes is its own base. */
  lemma PlainBase(s: string)
    requires s != "" && '/' !in s
    ensures Base(s) == s
  {
    assert s[|s| - 1] in s;
    assert TrimSlashes(s) == s;
    SameSegment(s, s);
  }

  lemma JoinCons(p: string, parts: seq<string>, c: char)
    requires |parts| >= 1
    ensures Join([p] + parts, c) == p + [c] + Join(parts, c)
  {
    assert ([p] + parts)[1..] == parts;
  }

  lemma Cut(s: string, i: nat)
    requires i < |s|
    ensures s == s[..i] + [s[i]] + s[i + 1..]
  {
  }

  /** Joining undoes splitting. */
  lemma {:induction false} JoinSplit(s: string, c: char)
    ensures Join(Split(s, c), c) == s
    decreases |s|
  {
    var i := Find(s, c);
    if i < |s| {
      var head, rest := s[..i], s[i + 1..];
      Cut(s, i);
      JoinSplit(rest, c);
      var parts := Split(rest, c);
      JoinCons(head, parts, c);
      calc {
        Join(Split(s, c), c);
        Join([head] + parts, c);
        head + [c] + Join(parts, c);
        head + [c] + rest;
        s;
      }
    }
  }

  /** There is always a name, of any length at least, that is not taken. */
  lemma {:induction false} Unused(xs: set<string>, n: nat) returns (x: string)
    ensures x !in xs && |x| >= n
    decreases |xs|
  {
    x := seq(n, _ => 'x');
    if x in xs {
      var y := Unused(xs - {x}, n + 1);
      x := y;
    }
  }
}
