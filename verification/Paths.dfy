/** Rooted slash-separated paths and their lexical cleaning, as path.Clean of the Go
    library does it for a path that starts with a slash. */
module Paths {
  import Text

  /** The parts of s between its slashes. */
  function Segments(s: string): (parts: seq<string>)
    ensures parts != []
    ensures forall i | 0 <= i < |parts| :: '/' !in parts[i]
    decreases |s|
  {
    var i := Text.IndexOf(s, '/');
    if i == |s| then [s] else [s[..i]] + Segments(s[i + 1..])
  }

  /** A segment that cleaning keeps as it is. */
  predicate Plain(part: string) {
    part != "" && part != "." && part != ".." && '/' !in part
  }

  predicate AllPlain(parts: seq<string>) {
    forall i | 0 <= i < |parts| :: Plain(parts[i])
  }

  /** Empty and "." segments vanish; ".." takes the segment before it away, and vanishes at
      the root. */
  function Reduced(kept: seq<string>, parts: seq<string>): seq<string>
    decreases |parts|
  {
    if parts == [] then kept
    else
      var part := parts[0];
      Reduced(
        if part == "" || part == "." then kept
        else if part == ".." then (if kept == [] then kept else kept[..|kept| - 1])
        else kept + [part],
        parts[1..])
  }

  function Joined(parts: seq<string>): string {
    if parts == [] then "" else "/" + parts[0] + Joined(parts[1..])
  }

  predicate Rooted(p: string) {
    p != "" && p[0] == '/'
  }

  function Clean(p: string): string
    requires Rooted(p)
  {
    var kept := Reduced([], Segments(p[1..]));
    if kept == [] then "/" else Joined(kept)
  }

  lemma {:induction false} SplitAtSlash(head: string, rest: string)
    requires '/' !in head
    ensures Segments(head + "/" + rest) == [head] + Segments(rest)
    ensures Segments(head) == [head]
  {
    var s := head + "/" + rest;
    var i := Text.IndexOf(s, '/');
    assert s[|head|] == '/';
    assert forall k | 0 <= k < |head| :: s[k] == head[k];
    assert i == |head|;
    assert s[..i] == head && s[i + 1..] == rest;
    assert Text.IndexOf(head, '/') == |head|;
  }

  lemma JoinedCons(head: string, rest: seq<string>)
    ensures Joined([head] + rest) == "/" + head + Joined(rest)
  {
    assert ([head] + rest)[1..] == rest;
  }

  lemma {:induction false} JoinThenSplit(parts: seq<string>)
    requires parts != [] && forall i | 0 <= i < |parts| :: '/' !in parts[i]
    ensures Rooted(Joined(parts)) && Segments(Joined(parts)[1..]) == parts
  {
    hide Segments;
    var head, rest := parts[0], parts[1..];
    assert parts == [head] + rest;
    JoinedCons(head, rest);
    if rest == [] {
      assert Joined(parts)[1..] == head;
      SplitAtSlash(head, "");
    } else {
      JoinThenSplit(rest);
      var tail := Joined(rest)[1..];
      assert Joined(parts)[1..] == head + "/" + tail;
      SplitAtSlash(head, tail);
    }
  }

  lemma {:induction false} SplitThenJoin(s: string)
    ensures Joined(Segments(s)) == "/" + s
    decreases |s|
  {
    hide Joined;
    var i := Text.IndexOf(s, '/');
    if i < |s| {
      var head, rest := s[..i], s[i + 1..];
      SplitThenJoin(rest);
      JoinedCons(head, Segments(rest));
      assert s == head + "/" + rest;
    } else {
      JoinedCons(s, []);
      JoinedEmpty();
      assert [s] + [] == [s];
    }
  }

  lemma JoinedEmpty()
    ensures Joined([]) == ""
  {
  }

  lemma {:induction false} ReducedIsPlain(kept: seq<string>, parts: seq<string>)
    requires AllPlain(kept) && forall i | 0 <= i < |parts| :: '/' !in parts[i]
    ensures AllPlain(Reduced(kept, parts))
    decreases |parts|
  {
    if parts != [] {
      var part := parts[0];
      ReducedIsPlain(
        if part == "" || part == "." then kept
        else if part == ".." then (if kept == [] then kept else kept[..|kept| - 1])
        else kept + [part],
        parts[1..]);
    }
  }

  lemma {:induction false} PlainIsReduced(kept: seq<string>, parts: seq<string>)
    requires AllPlain(parts)
    ensures Reduced(kept, parts) == kept + parts
    decreases |parts|
  {
    if parts != [] {
      assert Plain(parts[0]);
      PlainIsReduced(kept + [parts[0]], parts[1..]);
      assert kept + [parts[0]] + parts[1..] == kept + parts;
    }
  }

  /** Cleaning leaves a path alone exactly when it is the root or every segment is plain. */
  lemma CleanFixes(p: string)
    requires Rooted(p)
    ensures Clean(p) == p <==> p == "/" || AllPlain(Segments(p[1..]))
  {
    var parts := Segments(p[1..]);
    if p == "/" {
      assert parts == [""];
      assert Reduced([], parts) == Reduced([], parts[1..]) == [];
    } else if AllPlain(parts) {
      PlainIsReduced([], parts);
      SplitThenJoin(p[1..]);
      assert [] + parts == parts && "/" + p[1..] == p;
    } else if Clean(p) == p {
      var kept := Reduced([], parts);
      ReducedIsPlain([], parts);
      JoinThenSplit(kept);
      assert false;
    }
  }
}
