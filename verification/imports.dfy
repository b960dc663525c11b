/** The import filter of buildtags.go (`getImports`): of the import path
    literals one Go file declares, keep those inside the organisation's
    namespace, without their quotes. */
module Imports {
  import opened Strings

  /** An import path as the Go parser reports it (`ImportSpec.Path.Value`):
      a string literal still wearing its quotes, so at least two characters
      long. */
  type Literal = s: string | |s| >= 2 witness "\"\""

  /** The literal's text between its first and last character. */
  function Unquote(lit: Literal): (path: string)
    ensures |path| == |lit| - 2
    ensures lit == [lit[0]] + path + [lit[|lit| - 1]]
  {
    lit[1..|lit| - 1]
  }

  /** The source's textual test: a double quote followed by `basePkg`.
      It is a raw prefix test, not a path-segment test. */
  predicate IsInternal(lit: Literal, basePkg: string): (b: bool)
    ensures b <==> |basePkg| < |lit| && lit[0] == '"' && lit[1..|basePkg| + 1] == basePkg
  {
    HasPrefix(lit, "\"" + basePkg)
  }

  /** getImports on a file that parsed: the unquoted internal import paths,
      in the order they are declared. */
  function GetImports(lits: seq<Literal>, basePkg: string): (paths: seq<string>)
    ensures |paths| <= |lits|
    ensures forall p :: p in paths <==> exists v :: v in lits && IsInternal(v, basePkg) && p == Unquote(v)
  {
    if |lits| == 0 then []
    else
      assert forall v :: v in lits <==> v == lits[0] || v in lits[1..];
      (if IsInternal(lits[0], basePkg) then [Unquote(lits[0])] else [])
        + GetImports(lits[1..], basePkg)
  }

  /** The filter works literal by literal, so the kept paths keep their
      relative order and nothing is reordered across a boundary. */
  lemma {:induction false} GetImportsAppend(a: seq<Literal>, b: seq<Literal>, basePkg: string)
    ensures GetImports(a + b, basePkg) == GetImports(a, basePkg) + GetImports(b, basePkg)
  {
    if |a| == 0 {
      assert a + b == b;
    } else {
      var head := if IsInternal(a[0], basePkg) then [Unquote(a[0])] else [];
      assert (a + b)[0] == a[0] && (a + b)[1..] == a[1..] + b;
      assert GetImports(a + b, basePkg) == head + GetImports(a[1..] + b, basePkg);
      assert GetImports(a, basePkg) == head + GetImports(a[1..], basePkg);
      GetImportsAppend(a[1..], b, basePkg);
    }
  }

  /** On one literal the filter keeps the unquoted path exactly when the
      literal passes the namespace test; with GetImportsAppend this fixes
      the result on every list of literals. */
  lemma GetImportsSingle(v: Literal, basePkg: string)
    ensures GetImports([v], basePkg) == if IsInternal(v, basePkg) then [Unquote(v)] else []
  {
    assert [v][1..] == [];
  }

  /** The literal the parser reports for an interpreted import path `path`. */
  function Quoted(path: string): Literal {
    "\"" + path + "\""
  }

  /** Unquoting undoes quoting, and a quoted path is internal exactly when
      the path itself starts with `basePkg` (a namespace holding no quote
      character cannot reach into the closing quote). */
  lemma QuotedRoundTrip(path: string, basePkg: string)
    requires '"' !in basePkg
    ensures Unquote(Quoted(path)) == path
    ensures IsInternal(Quoted(path), basePkg) <==> HasPrefix(path, basePkg)
  {
    var lit := Quoted(path);
    assert lit[1..|lit| - 1] == path;
    if HasPrefix(path, basePkg) {
      assert lit[..|basePkg| + 1] == "\"" + path[..|basePkg|];
    }
    if IsInternal(lit, basePkg) {
      assert lit[|path| + 1] == '"';
      assert forall i :: 0 <= i < |basePkg| ==> lit[i + 1] == basePkg[i];
      assert |basePkg| <= |path|;
      assert lit[..|basePkg| + 1][1..] == path[..|basePkg|];
    }
  }

  /** Because the test is textual, a sibling namespace that merely shares
      the prefix is kept too, while standard-library imports are dropped. */
  lemma PrefixIsTextual()
    ensures GetImports([Quoted("htc.com/csix/util"), Quoted("fmt"), Quoted("htc.com/csi/log")], "htc.com/csi")
         == ["htc.com/csix/util", "htc.com/csi/log"]
  {
    var sibling, stdlib, own := Quoted("htc.com/csix/util"), Quoted("fmt"), Quoted("htc.com/csi/log");
    QuotedRoundTrip("htc.com/csix/util", "htc.com/csi");
    QuotedRoundTrip("fmt", "htc.com/csi");
    QuotedRoundTrip("htc.com/csi/log", "htc.com/csi");
    assert "htc.com/csix/util"[..11] == "htc.com/csi";
    assert "htc.com/csi/log"[..11] == "htc.com/csi";
    GetImportsAppend([sibling], [stdlib, own], "htc.com/csi");
    GetImportsAppend([stdlib], [own], "htc.com/csi");
    assert [sibling] + [stdlib, own] == [sibling, stdlib, own];
    assert [stdlib] + [own] == [stdlib, own];
  }
}
