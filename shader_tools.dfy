/**
 * The shader text patcher `shaderTools` of `common/three/utils.js`: pure
 * string rewriters built on JavaScript's `String.prototype.replace` with a
 * string pattern (only the first occurrence is rewritten) and on
 * `String.prototype.replaceAll` with a global regular expression.
 *
 * A `char` stands for one UTF-16 code unit of a JavaScript string.
 */
module ShaderTools {
  import opened Wrappers

  /** `p` occurs in `s` starting at index `k` */
  predicate OccursAt(s: string, p: string, k: nat) {
    k + |p| <= |s| && s[k..k + |p|] == p
  }

  /** `p` occurs somewhere in `s` */
  ghost predicate Contains(s: string, p: string) {
    exists k: nat :: OccursAt(s, p, k)
  }

  /** The first occurrence of `p` in `s` starts at `k` */
  predicate FirstAt(s: string, p: string, k: nat) {
    OccursAt(s, p, k) && forall j: nat :: j < k ==> !OccursAt(s, p, j)
  }

  /** No `$`, so GetSubstitution copies the text unchanged */
  predicate NoDollar(t: string) {
    '$' !in t
  }

  function Min(a: int, b: int): int {
    if a <= b then a else b
  }

  /**
   * StringIndexOf(s, p, from) of ECMA-262: the least index at or after
   * `from` where `p` occurs in `s`, or None where JavaScript answers -1.
   * An empty `p` is found at `from` itself as long as `from <= |s|`.
   */
  function IndexOf(s: string, p: string, from: nat): (r: Option<nat>)
    ensures r.Some? ==> from <= r.value && OccursAt(s, p, r.value)
    ensures r.Some? ==> forall j: nat :: from <= j < r.value ==> !OccursAt(s, p, j)
    ensures r.None? ==> forall j: nat :: from <= j ==> !OccursAt(s, p, j)
    decreases |s| - from
  {
    if from + |p| > |s| then None
    else if s[from..from + |p|] == p then Some(from)
    else IndexOf(s, p, from + 1)
  }

  /**
   * GetSubstitution, the operation ECMA-262 defines with
   * `String.prototype.replace` (section 22.1.3), for a match that has no
   * capture groups: `$$` gives `$`, `$&` the matched text, `` $` `` the
   * text before the match and `$'` the text after it. Every other
   * character is copied, including the `$` of `$1`..`$99` and of `$<`,
   * which stay literal because a string pattern captures nothing.
   */
  function Substitute(matched: string, str: string, position: nat, template: string): string
    requires position <= |str|
    decreases |template|
  {
    if |template| >= 2 && template[0] == '$' && template[1] == '$' then
      "$" + Substitute(matched, str, position, template[2..])
    else if |template| >= 2 && template[0] == '$' && template[1] == '`' then
      str[..position] + Substitute(matched, str, position, template[2..])
    else if |template| >= 2 && template[0] == '$' && template[1] == '&' then
      matched + Substitute(matched, str, position, template[2..])
    else if |template| >= 2 && template[0] == '$' && template[1] == '\'' then
      str[Min(position + |matched|, |str|)..] + Substitute(matched, str, position, template[2..])
    else if template == [] then
      []
    else
      [template[0]] + Substitute(matched, str, position, template[1..])
  }

  /** `s.replace(p, replacement)` for a string `p`: rewrites the first occurrence only */
  function Replace(s: string, p: string, replacement: string): string {
    match IndexOf(s, p, 0)
    case None => s
    case Some(k) => s[..k] + Substitute(p, s, k, replacement) + s[k + |p|..]
  }

  /** `shaderTools.injectBefore`: `injectedCode` and a newline go in front of the first `pattern` */
  function InjectBefore(source: string, pattern: string, injectedCode: string): string {
    Replace(source, pattern, injectedCode + "\n" + pattern)
  }

  /** `shaderTools.injectAfter`: a newline and `injectedCode` go behind the first `pattern` */
  function InjectAfter(source: string, pattern: string, injectedCode: string): string {
    Replace(source, pattern, pattern + "\n" + injectedCode)
  }

  /** The marker the host engine emits for a named shader chunk */
  function ChunkMarker(chunkName: string): string {
    "#include <" + chunkName + ">"
  }

  /** `shaderTools.injectBeforeChunk` */
  function InjectBeforeChunk(source: string, chunkName: string, injectedCode: string): string {
    InjectBefore(source, ChunkMarker(chunkName), injectedCode)
  }

  /** `shaderTools.injectAfterChunk` */
  function InjectAfterChunk(source: string, chunkName: string, injectedCode: string): string {
    InjectAfter(source, ChunkMarker(chunkName), injectedCode)
  }

  /** The characters that would make a regular-expression source more than a literal */
  predicate IsLiteralRegExp(pattern: string) {
    forall i :: 0 <= i < |pattern| ==> pattern[i] !in "^$\\.*+?()[]{}|"
  }

  /**
   * `RegExp.prototype[@@replace]` with the global flag, for a regular
   * expression that denotes the literal `p`: the next match is searched
   * from `lastIndex`, text is copied from `nextPos`; an empty match moves
   * `lastIndex` one further so that the scan terminates.
   */
  function ReplaceAllFrom(s: string, p: string, r: string, lastIndex: nat, nextPos: nat): string
    requires nextPos <= lastIndex <= nextPos + 1 && nextPos <= |s|
    decreases |s| + 1 - lastIndex
  {
    match IndexOf(s, p, lastIndex)
    case None => s[nextPos..]
    case Some(k) =>
      s[nextPos..k] + Substitute(p, s, k, r)
      + ReplaceAllFrom(s, p, r, if |p| == 0 then k + 1 else k + |p|, k + |p|)
  }

  /** `shaderTools.replace`: `source.replaceAll(new RegExp(pattern, 'g'), newCode)` for a literal pattern */
  function ReplaceAll(source: string, pattern: string, newCode: string): string
    requires IsLiteralRegExp(pattern)
  {
    ReplaceAllFrom(source, pattern, newCode, 0, 0)
  }

  // ---------------------------------------------------------------------
  // A reference definition for the global replacement: the pieces of `s`
  // between its non-overlapping occurrences of `p`, left to right.

  function SplitFrom(s: string, p: string, from: nat): (pieces: seq<string>)
    requires |p| > 0 && from <= |s|
    ensures |pieces| >= 1
    decreases |s| - from
  {
    match IndexOf(s, p, from)
    case None => [s[from..]]
    case Some(k) => [s[from..k]] + SplitFrom(s, p, k + |p|)
  }

  function Join(pieces: seq<string>, sep: string): string
    decreases |pieces|
  {
    if pieces == [] then ""
    else if |pieces| == 1 then pieces[0]
    else pieces[0] + sep + Join(pieces[1..], sep)
  }

  // ---------------------------------------------------------------------
  // Lemmas

  /** Without `$` in it, the replacement template is inserted verbatim */
  lemma {:induction false} SubstituteLiteral(matched: string, str: string, position: nat, template: string)
    requires position <= |str| && NoDollar(template)
    ensures Substitute(matched, str, position, template) == template
    decreases |template|
  {
    if template != [] {
      assert template[0] != '$';
      assert NoDollar(template[1..]) by {
        forall i | 0 <= i < |template[1..]| ensures template[1..][i] != '$' {
          assert template[1..][i] == template[i + 1];
        }
      }
      SubstituteLiteral(matched, str, position, template[1..]);
      assert [template[0]] + template[1..] == template;
    }
  }

  /** StringIndexOf finds exactly the first occurrence */
  lemma IndexOfFirst(s: string, p: string, k: nat)
    requires FirstAt(s, p, k)
    ensures IndexOf(s, p, 0) == Some(k)
  {
  }

  /** An occurrence inside a slice is an occurrence in the whole string */
  lemma OccursInSlice(s: string, p: string, a: nat, b: nat, j: nat)
    requires a <= b <= |s| && OccursAt(s[a..b], p, j)
    ensures OccursAt(s, p, a + j) && a + j + |p| <= b
  {
    forall i | 0 <= i < |p| ensures s[a + j + i] == p[i] {
      assert s[a..b][j..j + |p|][i] == p[i];
    }
    assert s[a + j..a + j + |p|] == p;
  }

  /** The first occurrence is rewritten by a template without `$`, everything else is kept */
  lemma ReplaceFirst(s: string, p: string, replacement: string, k: nat)
    requires FirstAt(s, p, k) && NoDollar(replacement)
    ensures Replace(s, p, replacement) == s[..k] + replacement + s[k + |p|..]
  {
    IndexOfFirst(s, p, k);
    SubstituteLiteral(p, s, k, replacement);
  }

  /** A missing pattern leaves the text as it is, whatever the replacement */
  lemma ReplaceAbsent(s: string, p: string, replacement: string)
    requires !Contains(s, p)
    ensures Replace(s, p, replacement) == s
  {
  }

  /**
   * injectBefore: around the first occurrence at `k`, the result is the
   * prefix, the code, a newline, the pattern and the untouched suffix; the
   * text is `|injectedCode| + 1` longer.
   */
  lemma InjectBeforeFirst(source: string, pattern: string, injectedCode: string, k: nat)
    requires FirstAt(source, pattern, k) && NoDollar(injectedCode) && NoDollar(pattern)
    ensures InjectBefore(source, pattern, injectedCode)
            == source[..k] + injectedCode + "\n" + pattern + source[k + |pattern|..]
    ensures |InjectBefore(source, pattern, injectedCode)| == |source| + |injectedCode| + 1
  {
    ReplaceFirst(source, pattern, injectedCode + "\n" + pattern, k);
    assert source == source[..k] + pattern + source[k + |pattern|..];
  }

  /** injectAfter: the pattern stays in place, then a newline and the code */
  lemma InjectAfterFirst(source: string, pattern: string, injectedCode: string, k: nat)
    requires FirstAt(source, pattern, k) && NoDollar(injectedCode) && NoDollar(pattern)
    ensures InjectAfter(source, pattern, injectedCode)
            == source[..k] + pattern + "\n" + injectedCode + source[k + |pattern|..]
    ensures |InjectAfter(source, pattern, injectedCode)| == |source| + |injectedCode| + 1
  {
    ReplaceFirst(source, pattern, pattern + "\n" + injectedCode, k);
    assert source == source[..k] + pattern + source[k + |pattern|..];
  }

  /** A missing marker is a silent no-op for both injections, and only a missing marker is */
  lemma InjectIdentityIffAbsent(source: string, pattern: string, injectedCode: string)
    requires NoDollar(injectedCode) && NoDollar(pattern)
    ensures InjectBefore(source, pattern, injectedCode) == source <==> !Contains(source, pattern)
    ensures InjectAfter(source, pattern, injectedCode) == source <==> !Contains(source, pattern)
  {
    match IndexOf(source, pattern, 0)
    case None =>
      ReplaceAbsent(source, pattern, injectedCode + "\n" + pattern);
      ReplaceAbsent(source, pattern, pattern + "\n" + injectedCode);
    case Some(k) =>
      assert Contains(source, pattern);
      InjectBeforeFirst(source, pattern, injectedCode, k);
      InjectAfterFirst(source, pattern, injectedCode, k);
  }

  /**
   * Only the first occurrence is touched: every occurrence after it is
   * still there, shifted by the length of the insertion.
   */
  lemma InjectKeepsLaterOccurrences(source: string, pattern: string, injectedCode: string, k: nat, j: nat)
    requires FirstAt(source, pattern, k) && NoDollar(injectedCode) && NoDollar(pattern)
    requires k + |pattern| <= j && OccursAt(source, pattern, j)
    ensures OccursAt(InjectBefore(source, pattern, injectedCode), pattern, j + |injectedCode| + 1)
    ensures OccursAt(InjectAfter(source, pattern, injectedCode), pattern, j + |injectedCode| + 1)
  {
    InjectBeforeFirst(source, pattern, injectedCode, k);
    InjectAfterFirst(source, pattern, injectedCode, k);
    var n := |injectedCode| + 1;
    var suffix := source[k + |pattern|..];
    var before := source[..k] + injectedCode + "\n" + pattern;
    var after := source[..k] + pattern + "\n" + injectedCode;
    assert |before| == |after| == k + |pattern| + n;
    var d := j - (k + |pattern|);
    assert suffix[d..d + |pattern|] == source[j..j + |pattern|];
    assert (before + suffix)[j + n..j + n + |pattern|] == suffix[d..d + |pattern|];
    assert (after + suffix)[j + n..j + n + |pattern|] == suffix[d..d + |pattern|];
  }

  /**
   * The marker survives injectBefore: it now follows the inserted code, so
   * a second injection at the same marker finds it again.
   */
  lemma InjectBeforeKeepsMarker(source: string, pattern: string, injectedCode: string, k: nat)
    requires FirstAt(source, pattern, k) && NoDollar(injectedCode) && NoDollar(pattern)
    ensures OccursAt(InjectBefore(source, pattern, injectedCode), pattern, k + |injectedCode| + 1)
    ensures Contains(InjectBefore(source, pattern, injectedCode), pattern)
  {
    InjectBeforeFirst(source, pattern, injectedCode, k);
    var r := InjectBefore(source, pattern, injectedCode);
    var m := k + |injectedCode| + 1;
    assert r[m..m + |pattern|] == pattern;
    assert OccursAt(r, pattern, m);
  }

  /** The marker survives injectAfter and stays the first occurrence, at the same index */
  lemma InjectAfterKeepsFirst(source: string, pattern: string, injectedCode: string, k: nat)
    requires FirstAt(source, pattern, k) && NoDollar(injectedCode) && NoDollar(pattern)
    ensures FirstAt(InjectAfter(source, pattern, injectedCode), pattern, k)
  {
    InjectAfterFirst(source, pattern, injectedCode, k);
    var r := InjectAfter(source, pattern, injectedCode);
    assert r[..k + |pattern|] == source[..k + |pattern|];
    assert r[k..k + |pattern|] == pattern;
    forall j: nat | j < k ensures !OccursAt(r, pattern, j) {
      assert r[j..j + |pattern|] == source[j..j + |pattern|];
      assert OccursAt(r, pattern, j) == OccursAt(source, pattern, j);
    }
  }

  /**
   * Two injectAfter calls at one marker: the later code lands nearer the
   * marker, the earlier code follows it.
   */
  lemma InjectAfterTwice(source: string, pattern: string, first: string, second: string, k: nat)
    requires FirstAt(source, pattern, k) && NoDollar(first) && NoDollar(second) && NoDollar(pattern)
    ensures InjectAfter(InjectAfter(source, pattern, first), pattern, second)
            == source[..k] + pattern + "\n" + second + "\n" + first + source[k + |pattern|..]
  {
    var once := InjectAfter(source, pattern, first);
    InjectAfterFirst(source, pattern, first, k);
    InjectAfterKeepsFirst(source, pattern, first, k);
    InjectAfterFirst(once, pattern, second, k);
    assert once[..k] == source[..k];
    assert once[k + |pattern|..] == "\n" + first + source[k + |pattern|..];
  }

  /** injectBeforeChunk is injectBefore at the chunk's `#include <name>` marker */
  lemma InjectBeforeChunkFirst(source: string, chunkName: string, injectedCode: string, k: nat)
    requires FirstAt(source, ChunkMarker(chunkName), k) && NoDollar(injectedCode) && NoDollar(chunkName)
    ensures InjectBeforeChunk(source, chunkName, injectedCode)
            == source[..k] + injectedCode + "\n#include <" + chunkName + ">" + source[k + |chunkName| + 11..]
  {
    InjectBeforeFirst(source, ChunkMarker(chunkName), injectedCode, k);
    assert injectedCode + "\n" + ChunkMarker(chunkName) == injectedCode + "\n#include <" + chunkName + ">";
  }

  /** injectAfterChunk is injectAfter at the chunk's `#include <name>` marker */
  lemma InjectAfterChunkFirst(source: string, chunkName: string, injectedCode: string, k: nat)
    requires FirstAt(source, ChunkMarker(chunkName), k) && NoDollar(injectedCode) && NoDollar(chunkName)
    ensures InjectAfterChunk(source, chunkName, injectedCode)
            == source[..k] + "#include <" + chunkName + ">\n" + injectedCode + source[k + |chunkName| + 11..]
  {
    InjectAfterFirst(source, ChunkMarker(chunkName), injectedCode, k);
    assert ChunkMarker(chunkName) + "\n" + injectedCode == "#include <" + chunkName + ">\n" + injectedCode;
  }

  /** Join of a piece in front of at least one more */
  lemma JoinCons(a: string, rest: seq<string>, sep: string)
    requires |rest| >= 1
    ensures Join([a] + rest, sep) == a + sep + Join(rest, sep)
  {
    assert ([a] + rest)[1..] == rest;
  }

  /** A slice cut in three */
  lemma SliceAround(s: string, i: nat, j: nat, k: nat)
    requires i <= j <= k <= |s|
    ensures s[i..] == s[i..j] + s[j..k] + s[k..]
  {
  }

  /** Joining the pieces with the pattern gives back the text */
  lemma {:induction false} SplitJoin(s: string, p: string, from: nat)
    requires |p| > 0 && from <= |s|
    ensures Join(SplitFrom(s, p, from), p) == s[from..]
    decreases |s| - from
  {
    match IndexOf(s, p, from)
    case None =>
    case Some(k) =>
      SplitJoin(s, p, k + |p|);
      var rest := SplitFrom(s, p, k + |p|);
      var pieces := [s[from..k]] + rest;
      assert SplitFrom(s, p, from) == pieces;
      JoinCons(s[from..k], rest, p);
      SliceAround(s, from, k, k + |p|);
  }

  /** No piece contains the pattern */
  lemma {:induction false} SplitPiecesFree(s: string, p: string, from: nat)
    requires |p| > 0 && from <= |s|
    ensures forall i :: 0 <= i < |SplitFrom(s, p, from)| ==> !Contains(SplitFrom(s, p, from)[i], p)
    decreases |s| - from
  {
    var pieces := SplitFrom(s, p, from);
    match IndexOf(s, p, from)
    case None =>
      if Contains(s[from..], p) {
        var j: nat :| OccursAt(s[from..], p, j);
        assert s[from..] == s[from..|s|];
        OccursInSlice(s, p, from, |s|, j);
      }
    case Some(k) =>
      SplitPiecesFree(s, p, k + |p|);
      assert pieces == [s[from..k]] + SplitFrom(s, p, k + |p|);
      if Contains(s[from..k], p) {
        var j: nat :| OccursAt(s[from..k], p, j);
        OccursInSlice(s, p, from, k, j);
      }
      forall i | 0 <= i < |pieces| ensures !Contains(pieces[i], p) {
        if i > 0 {
          assert pieces[i] == SplitFrom(s, p, k + |p|)[i - 1];
        }
      }
  }

  /**
   * The global replacement of a non-empty literal pattern by code without
   * `$` is the text's pieces joined with the new code: every non-overlapping
   * occurrence, left to right, is replaced, and nothing else changes.
   */
  lemma {:induction false} ReplaceAllFromIsJoin(s: string, p: string, r: string, from: nat)
    requires |p| > 0 && from <= |s| && NoDollar(r)
    ensures ReplaceAllFrom(s, p, r, from, from) == Join(SplitFrom(s, p, from), r)
    decreases |s| - from
  {
    match IndexOf(s, p, from)
    case None =>
    case Some(k) =>
      var rest := SplitFrom(s, p, k + |p|);
      var piece := s[from..k];
      assert SplitFrom(s, p, from) == [piece] + rest;
      assert ReplaceAllFrom(s, p, r, from, from)
             == piece + Substitute(p, s, k, r) + ReplaceAllFrom(s, p, r, k + |p|, k + |p|);
      SubstituteLiteral(p, s, k, r);
      ReplaceAllFromIsJoin(s, p, r, k + |p|);
      assert ([piece] + rest)[1..] == rest;
      assert Join([piece] + rest, r) == piece + r + Join(rest, r);
  }

  /**
   * shaderTools.replace with a literal, non-empty pattern and code without
   * `$`: the pieces between occurrences, joined with the new code. The text
   * is those same pieces joined with the pattern, and no piece holds it.
   */
  lemma ReplaceAllLiteral(source: string, pattern: string, newCode: string)
    requires IsLiteralRegExp(pattern) && |pattern| > 0 && NoDollar(newCode)
    ensures ReplaceAll(source, pattern, newCode) == Join(SplitFrom(source, pattern, 0), newCode)
    ensures source == Join(SplitFrom(source, pattern, 0), pattern)
    ensures forall i :: 0 <= i < |SplitFrom(source, pattern, 0)| ==> !Contains(SplitFrom(source, pattern, 0)[i], pattern)
  {
    ReplaceAllFromIsJoin(source, pattern, newCode, 0);
    SplitJoin(source, pattern, 0);
    SplitPiecesFree(source, pattern, 0);
  }

  /** Every character of `t`, each followed by `code` */
  function FollowEach(t: string, code: string): string
    decreases |t|
  {
    if t == [] then [] else [t[0]] + code + FollowEach(t[1..], code)
  }

  /**
   * The global scan with the empty pattern, from just after the empty match
   * at `i`: the rest of the text, each character followed by the new code.
   */
  lemma {:induction false} ReplaceAllEmptyFrom(s: string, newCode: string, i: nat)
    requires i <= |s| && NoDollar(newCode)
    ensures ReplaceAllFrom(s, "", newCode, i + 1, i) == FollowEach(s[i..], newCode)
    decreases |s| - i
  {
    if i + 1 <= |s| {
      assert IndexOf(s, "", i + 1) == Some(i + 1) by {
        assert s[i + 1..i + 1] == "";
      }
      SubstituteLiteral("", s, i + 1, newCode);
      ReplaceAllEmptyFrom(s, newCode, i + 1);
      assert s[i..][1..] == s[i + 1..];
      assert s[i..i + 1] == [s[i..][0]];
    } else {
      assert IndexOf(s, "", i + 1) == None;
      assert s[i..] == [];
    }
  }

  /**
   * shaderTools.replace with the empty pattern: the new code goes in front
   * of every character and once more at the end.
   */
  lemma ReplaceAllEmpty(source: string, newCode: string)
    requires NoDollar(newCode)
    ensures IsLiteralRegExp("")
    ensures ReplaceAll(source, "", newCode) == newCode + FollowEach(source, newCode)
    ensures |ReplaceAll(source, "", newCode)| == |source| + (|source| + 1) * |newCode|
  {
    assert source[0..0] == "" && source[0..] == source;
    SubstituteLiteral("", source, 0, newCode);
    ReplaceAllEmptyFrom(source, newCode, 0);
    FollowEachLength(source, newCode);
  }

  lemma {:induction false} FollowEachLength(t: string, code: string)
    ensures |FollowEach(t, code)| == |t| * (1 + |code|)
    decreases |t|
  {
    if t != [] {
      FollowEachLength(t[1..], code);
    }
  }

  /** shaderTools.replace with a pattern that does not occur is the identity */
  lemma ReplaceAllAbsent(source: string, pattern: string, newCode: string)
    requires IsLiteralRegExp(pattern) && !Contains(source, pattern)
    ensures ReplaceAll(source, pattern, newCode) == source
  {
  }
}
