/** src/mangler.rs: the ARM64EC name mangling of exported functions.  A C++ name (one
    starting with '?') gets the marker "$$h" inserted after its name part; any other name
    gets a leading '#'.  Rust's `&str` searching (`find`, `contains`, `split_once`) is done
    with the search functions below, on a name modelled as a sequence of chars.  Rust's
    `str::find` and `split_once` return byte offsets rather than char positions, but every
    pattern involved ("?", "#", "@", "@@", "@@@", "$$h") is ASCII, and an ASCII byte never
    occurs inside a multi-byte UTF-8 sequence; so a match found on the bytes is a match on
    the chars, and the text before and after it is the same either way. */
module Mangler {
  import opened Wrappers

  const CPP_MARKER: string := "$$h"

  /** `pat` occurs in `s` starting at `i`. */
  predicate OccursAt(s: string, pat: string, i: nat) {
    i + |pat| <= |s| && s[i..i + |pat|] == pat
  }

  lemma OccursAtTail(s: string, pat: string, j: nat)
    requires s != []
    ensures OccursAt(s[1..], pat, j) <==> OccursAt(s, pat, j + 1)
  {
    if j + 1 + |pat| <= |s| {
      assert s[1..][j..j + |pat|] == s[j + 1..j + 1 + |pat|];
    }
  }

  /** Rust's `str::find`: the first position at which `pat` occurs. */
  function Find(s: string, pat: string): (r: Option<nat>)
    ensures r.Some? ==> OccursAt(s, pat, r.value)
    ensures r.Some? ==> forall j :: 0 <= j < r.value ==> !OccursAt(s, pat, j)
    ensures r.None? ==> forall j :: 0 <= j <= |s| ==> !OccursAt(s, pat, j)
    decreases |s|
  {
    if OccursAt(s, pat, 0) then Some(0)
    else if s == [] then None
    else
      var rest := Find(s[1..], pat);
      FindShift(s, pat, rest);
      if rest.Some? then Some(rest.value + 1) else None
  }

  lemma FindShift(s: string, pat: string, rest: Option<nat>)
    requires s != [] && !OccursAt(s, pat, 0)
    requires rest.Some? ==> OccursAt(s[1..], pat, rest.value)
    requires rest.Some? ==> forall j :: 0 <= j < rest.value ==> !OccursAt(s[1..], pat, j)
    requires rest.None? ==> forall j :: 0 <= j <= |s[1..]| ==> !OccursAt(s[1..], pat, j)
    ensures rest.Some? ==> OccursAt(s, pat, rest.value + 1)
    ensures rest.Some? ==> forall j :: 0 <= j < rest.value + 1 ==> !OccursAt(s, pat, j)
    ensures rest.None? ==> forall j :: 0 <= j <= |s| ==> !OccursAt(s, pat, j)
  {
    forall j | 0 <= j <= |s[1..]|
      ensures OccursAt(s[1..], pat, j) <==> OccursAt(s, pat, j + 1)
    {
      OccursAtTail(s, pat, j);
    }
    forall j | 0 < j <= |s|
      ensures OccursAt(s, pat, j) <==> OccursAt(s[1..], pat, j - 1)
    {
      OccursAtTail(s, pat, j - 1);
    }
  }

  /** Rust's `str::contains`. */
  predicate Contains(s: string, pat: string) {
    Find(s, pat).Some?
  }

  /** Where "$$h" goes in a C++ name: after the first "@@" unless that is the first "@@@",
      else after the first '@', else at the end. */
  function InsertIndex(name: string): (r: nat)
    ensures r <= |name|
    ensures |name| >= 1 ==> r >= 1
  {
    match Find(name, "@@")
    case Some(i) =>
      if Some(i) != Find(name, "@@@") then i + 2
      else (match Find(name, "@") case Some(j) => j + 1 case None => |name|)
    case None =>
      match Find(name, "@") case Some(j) => j + 1 case None => |name|
  }

  /** `get_arm64ec_mangled_function_name`.  The source unwraps the first character, so
      the name must not be empty. */
  function Mangle(name: string): (r: Option<string>)
    requires |name| >= 1
    ensures r.None? <==> (name[0] == '?' && Contains(name, CPP_MARKER)) || name[0] == '#'
    ensures r.Some? ==> |r.value| == |name| + if name[0] == '?' then 3 else 1
  {
    var isCppFn := name[0] == '?';
    if isCppFn && Contains(name, CPP_MARKER) then None
    else if !isCppFn && name[0] == '#' then None
    else
      var insertIdx := if isCppFn then InsertIndex(name) else 0;
      var prefix := if isCppFn then CPP_MARKER else "#";
      Some(name[..insertIdx] + prefix + name[insertIdx..])
  }

  /** `get_arm64ec_demangled_function_name`: strips a leading '#', or removes the first
      "$$h" of a C++ name when something follows it. */
  function Demangle(name: string): (r: Option<string>)
    requires |name| >= 1
    ensures name[0] == '#' ==> r == Some(name[1..])
    ensures name[0] != '#' && name[0] != '?' ==> r.None?
    ensures r.Some? ==> |r.value| == |name| - if name[0] == '#' then 1 else 3
    ensures name[0] == '?' ==>
      (r.Some? <==> Find(name, CPP_MARKER).Some? && Find(name, CPP_MARKER).value + 3 < |name|)
    ensures name[0] == '?' && r.Some? ==>
      var i := Find(name, CPP_MARKER).value;
      r.value == name[..i] + name[i + 3..]
  {
    if name[0] == '#' then Some(name[1..])
    else if name[0] != '?' then None
    else
      match Find(name, CPP_MARKER)
      case Some(i) =>
        var first, second := name[..i], name[i + 3..];
        if second != [] then Some(first + second) else None
      case None => None
  }

  /** A plain name mangles to '#' followed by the name. */
  lemma MangleNonCpp(name: string)
    requires |name| >= 1 && name[0] != '?' && name[0] != '#'
    ensures Mangle(name) == Some("#" + name)
  {
    assert name[..0] + "#" + name[0..] == "#" + name;
  }

  /** Mangling a plain name and demangling the result gives the name back. */
  lemma MangleRoundTripNonCpp(name: string)
    requires |name| >= 1 && name[0] != '?' && name[0] != '#'
    ensures Mangle(name).Some?
    ensures Demangle(Mangle(name).value) == Some(name)
  {
    MangleNonCpp(name);
    assert ("#" + name)[1..] == name;
  }

  /** The first "@@" is the first "@@@" exactly when a third '@' follows it. */
  lemma FirstTripleAt(name: string, i: nat)
    requires Find(name, "@@") == Some(i)
    ensures Find(name, "@@@") == Some(i) <==> (i + 2 < |name| && name[i + 2] == '@')
  {
    if i + 2 < |name| && name[i + 2] == '@' {
      TripleAt(name, i);
    } else {
      NotTripleAt(name, i);
    }
  }

  lemma TripleAt(name: string, i: nat)
    requires Find(name, "@@") == Some(i) && i + 2 < |name| && name[i + 2] == '@'
    ensures Find(name, "@@@") == Some(i)
  {
    DoubleThenAt(name, i);
    var t := Find(name, "@@@");
    assert t.Some? && t.value <= i;
    DoubleInTriple(name, t.value);
    assert t.value >= i;
  }

  lemma DoubleThenAt(name: string, i: nat)
    requires OccursAt(name, "@@", i) && i + 2 < |name| && name[i + 2] == '@'
    ensures OccursAt(name, "@@@", i)
  {
    assert name[i..i + 3] == name[i..i + 2] + [name[i + 2]];
  }

  lemma DoubleInTriple(name: string, j: nat)
    requires OccursAt(name, "@@@", j)
    ensures OccursAt(name, "@@", j)
  {
    assert name[j..j + 2] == name[j..j + 3][..2];
  }

  lemma NotTripleAt(name: string, i: nat)
    requires !(i + 2 < |name| && name[i + 2] == '@')
    ensures Find(name, "@@@") != Some(i)
  {
    var t := Find(name, "@@@");
    if t.Some? {
      TripleThird(name, t.value);
    }
  }

  lemma TripleThird(name: string, i: nat)
    requires OccursAt(name, "@@@", i)
    ensures i + 2 < |name| && name[i + 2] == '@'
  {
    assert name[i..i + 3][2] == name[i + 2];
  }

  /** The insertion point of "$$h", described by the characters around it. */
  lemma InsertIndexCases(name: string)
    ensures var r := InsertIndex(name);
      match Find(name, "@@")
      case Some(i) =>
        if i + 2 < |name| && name[i + 2] == '@' then
          r == (match Find(name, "@") case Some(j) => j + 1 case None => |name|)
        else r == i + 2
      case None => r == (match Find(name, "@") case Some(j) => j + 1 case None => |name|)
  {
    var f := Find(name, "@@");
    if f.Some? {
      FirstTripleAt(name, f.value);
    }
  }

  /** A C++ name without "$$h" mangles to the name with "$$h" at InsertIndex. */
  lemma MangleCpp(name: string)
    requires |name| >= 1 && name[0] == '?' && !Contains(name, CPP_MARKER)
    ensures Mangle(name) == Some(name[..InsertIndex(name)] + CPP_MARKER + name[InsertIndex(name)..])
  {
  }

  /** In `pre + "$$h" + post` where "$$h" does not occur in `pre + post`, the first "$$h" is
      the inserted one. */
  lemma FindInserted(pre: string, post: string)
    requires !Contains(pre + post, CPP_MARKER)
    ensures Find(pre + CPP_MARKER + post, CPP_MARKER) == Some(|pre|)
  {
    var m := pre + CPP_MARKER + post;
    var p := pre + post;
    assert OccursAt(m, CPP_MARKER, |pre|) by {
      assert m[|pre|..|pre| + 3] == CPP_MARKER;
    }
    forall j | 0 <= j < |pre|
      ensures !OccursAt(m, CPP_MARKER, j)
    {
      if j + 3 <= |pre| {
        assert m[j..j + 3] == p[j..j + 3];
        assert !OccursAt(p, CPP_MARKER, j);
      } else {
        // A straddling occurrence would put its 'h' on one of the inserted '$'.
        assert m[j + 2] == '$';
        if j + 3 <= |m| {
          assert m[j..j + 3][2] == m[j + 2];
        }
      }
    }
  }

  /** For a C++ name, demangling undoes mangling exactly when the marker went before the
      last character's end, i.e. something follows it; otherwise demangling gives None. */
  lemma MangleRoundTripCpp(name: string)
    requires |name| >= 1 && name[0] == '?' && !Contains(name, CPP_MARKER)
    ensures Mangle(name).Some?
    ensures InsertIndex(name) < |name| ==> Demangle(Mangle(name).value) == Some(name)
    ensures InsertIndex(name) == |name| ==> Demangle(Mangle(name).value).None?
  {
    var i := InsertIndex(name);
    var pre, post := name[..i], name[i..];
    assert pre + post == name;
    MangleCpp(name);
    FindInserted(pre, post);
    var m := pre + CPP_MARKER + post;
    assert m[..i] == pre && m[i + 3..] == post;
    assert m[0] == '?';
  }
}
