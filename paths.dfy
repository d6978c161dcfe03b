/**
 * path/filepath.Clean and filepath.Join for '/'-separated (Unix) paths, as
 * the file backend uses them to place pastes under its root.
 *
 * Clean works element by element: empty and "." elements vanish, ".." removes
 * the element before it, a leading ".." of a rooted path vanishes, and the
 * empty result is ".".
 */
module Paths {

  /** Index of the first '/' in s. */
  function FirstSlash(s: string): (i: nat)
    requires '/' in s
    ensures i < |s| && s[i] == '/' && '/' !in s[..i]
  {
    if s[0] == '/' then 0
    else
      var j := FirstSlash(s[1..]);
      assert s[..j + 1] == [s[0]] + s[1..][..j];
      j + 1
  }

  /** The elements between separators; "a//b/" has elements "a", "", "b", "". */
  function Elements(s: string): (es: seq<string>)
    ensures |es| >= 1
    ensures forall k :: 0 <= k < |es| ==> '/' !in es[k]
    decreases |s|
  {
    if '/' !in s then [s]
    else
      var i := FirstSlash(s);
      [s[..i]] + Elements(s[i + 1..])
  }

  /** Fold the elements onto `kept`, resolving "." and ".." lexically. */
  function Resolve(es: seq<string>, rooted: bool, kept: seq<string>): (r: seq<string>)
    ensures (forall k :: 0 <= k < |kept| ==> kept[k] != "") ==> forall k :: 0 <= k < |r| ==> r[k] != ""
    decreases |es|
  {
    if |es| == 0 then kept
    else
      var e := es[0];
      var next :=
        if e == "" || e == "." then kept
        else if e == ".." then
          (if |kept| > 0 && kept[|kept| - 1] != ".." then kept[..|kept| - 1]
           else if rooted then kept
           else kept + [".."])
        else kept + [e];
      Resolve(es[1..], rooted, next)
  }

  /** The elements joined by single separators. */
  function Unsplit(es: seq<string>): (s: string)
    ensures |es| > 0 ==> |s| >= |es[0]|
  {
    if |es| == 0 then ""
    else if |es| == 1 then es[0]
    else es[0] + "/" + Unsplit(es[1..])
  }

  /** filepath.Clean. */
  function Clean(p: string): (c: string)
    ensures |c| > 0
    ensures (|p| > 0 && p[0] == '/') ==> c[0] == '/'
  {
    var rooted := |p| > 0 && p[0] == '/';
    var kept := Resolve(Elements(p), rooted, []);
    if rooted then "/" + Unsplit(kept)
    else if kept == [] then "."
    else Unsplit(kept)
  }

  /** filepath.Join of two elements: the empty element is skipped, the rest is cleaned. */
  function Join(dir: string, name: string): (j: string)
    ensures dir == "" && name == "" ==> j == ""
    ensures dir != "" ==> j == Clean(dir + "/" + name)
    ensures dir == "" && name != "" ==> j == Clean(name)
  {
    if dir != "" then Clean(dir + "/" + name)
    else if name != "" then Clean(name)
    else ""
  }

  /** A single ordinary element: no separator and no dot. */
  predicate PlainName(name: string) {
    |name| > 0 && forall i :: 0 <= i < |name| ==> name[i] != '/' && name[i] != '.'
  }

  /** Cleaning a plain name leaves it as it is, so a key the backend generated is found again by Get. */
  lemma CleanPlainName(name: string)
    requires PlainName(name)
    ensures Clean(name) == name
  {
    assert '/' !in name;
    assert Elements(name) == [name];
    assert name != "." && name != ".." by {
      assert name[0] != '.';
    }
    assert Resolve([name], false, []) == Resolve([], false, [name]);
  }

  /** Clean("") is "." and Clean("/") is "/". */
  lemma CleanEdges()
    ensures Clean("") == "."
    ensures Clean("/") == "/"
  {
    assert Elements("") == [""];
    assert Resolve([""], false, []) == Resolve([], false, []);
    var i := FirstSlash("/");
    assert i == 0;
    assert "/"[1..] == "";
    assert Elements("/") == ["", ""];
    assert Resolve(["", ""], true, []) == Resolve([""], true, []);
    assert ["", ""][1..] == [""];
  }
}
