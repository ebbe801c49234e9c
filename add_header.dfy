/** add-header.js: the text transformation of addHeaderToFile. The file's
    old content is `data`; the outcome says whether the script writes and
    what. Reading, writing and the directory walk are not modelled. */
module AddHeader {
  import opened Common

  /** JavaScript's `\s`: WhiteSpace and LineTerminator characters. */
  predicate IsJsSpace(c: char) {
    c == '\t' || c == '\n' || c == '\U{B}' || c == '\U{C}' || c == '\r' || c == ' '
    || c == '\U{A0}' || c == '\U{1680}' || ('\U{2000}' <= c <= '\U{200A}')
    || c == '\U{2028}' || c == '\U{2029}' || c == '\U{202F}' || c == '\U{205F}'
    || c == '\U{3000}' || c == '\U{FEFF}'
  }

  /** The characters a regular-expression `.` does not match. */
  predicate IsLineTerminator(c: char) {
    c == '\n' || c == '\r' || c == '\U{2028}' || c == '\U{2029}'
  }

  /** Length of the longest prefix of `\s` characters (what a greedy `\s*` takes). */
  function SpaceRun(s: string): (n: nat)
    ensures n <= |s|
    ensures forall i {:trigger IsJsSpace(s[i])} :: 0 <= i < n ==> IsJsSpace(s[i])
    ensures n < |s| ==> !IsJsSpace(s[n])
  {
    if s != [] && IsJsSpace(s[0]) then 1 + SpaceRun(s[1..]) else 0
  }

  /** Length of the longest prefix without line terminators (what a greedy `.*` takes). */
  function LineRun(s: string): (n: nat)
    ensures n <= |s|
    ensures forall i {:trigger IsLineTerminator(s[i])} :: 0 <= i < n ==> !IsLineTerminator(s[i])
    ensures n < |s| ==> IsLineTerminator(s[n])
  {
    if s != [] && !IsLineTerminator(s[0]) then 1 + LineRun(s[1..]) else 0
  }

  /** "//" at position `i`: the two slashes that open a comment. */
  predicate SlashesAt(s: string, i: nat) {
    i + 2 <= |s| && s[i] == '/' && s[i + 1] == '/'
  }

  /** The length of a match of `\s*\/\/.*\n` at the start of `s`, if there is
      one. Backtracking cannot find another: `\s*` must stop before '/', and
      a shorter `.*` leaves a non-terminator where '\n' is needed. */
  function CommentLine(s: string): (r: Option<nat>)
    ensures r.Some? ==> 3 <= r.value <= |s|
  {
    var w := SpaceRun(s);
    if SlashesAt(s, w) then
      var t := w + 2 + LineRun(s[w + 2..]);
      if t < |s| && s[t] == '\n' then Some(t + 1) else None
    else None
  }

  /** `data.replace(/^(\s*\/\/.*\n)*\s*\/, "")`: drop leading comment lines and
      then leading whitespace. The result is a suffix of the input, starts
      with no whitespace and with no complete comment line. */
  function StripLeading(s: string): (r: string)
    ensures |r| <= |s| && r == s[|s| - |r|..]
    ensures r == [] || !IsJsSpace(r[0])
    ensures CommentLine(r).None?
    decreases |s|
  {
    match CommentLine(s)
    case Some(n) => StripLeading(s[n..])
    case None =>
      CommentLineAfterSpace(s);
      s[SpaceRun(s)..]
  }

  /** When no comment line starts `s`, none starts after its leading whitespace. */
  lemma CommentLineAfterSpace(s: string)
    requires CommentLine(s).None?
    ensures var r := s[SpaceRun(s)..];
      (r == [] || !IsJsSpace(r[0])) && CommentLine(r).None?
  {
    var w := SpaceRun(s);
    var r := s[w..];
    SpaceRunIs(r, 0);
    assert r[0..] == r;
    if SlashesAt(r, 0) {
      assert r[2..] == s[w + 2..];
    }
  }

  /** `filePath.replace(/\\/g, "/")`. */
  function NormalizePath(path: string): (r: string)
    ensures |r| == |path|
    ensures forall i :: 0 <= i < |path| ==> r[i] == (if path[i] == '\\' then '/' else path[i])
    ensures '\\' !in r
  {
    if path == [] then [] else [if path[0] == '\\' then '/' else path[0]] + NormalizePath(path[1..])
  }

  function HeaderComment(path: string): string {
    "// " + NormalizePath(path)
  }

  datatype Outcome = Unchanged | Write(content: string)

  /** addHeaderToFile: strip, keep a file whose stripped text already starts
      with the header, otherwise write "\n" + header + "\n\n" + stripped text
      unless that equals the old content. */
  function AddHeaderToFile(path: string, data: string): (out: Outcome)
    ensures StartsWith(StripLeading(data), HeaderComment(path)) ==> out == Unchanged
    ensures out.Write? ==>
      out.content == "\n" + HeaderComment(path) + "\n\n" + StripLeading(data) && out.content != data
    ensures out == Unchanged ==>
      StartsWith(StripLeading(data), HeaderComment(path))
      || data == "\n" + HeaderComment(path) + "\n\n" + StripLeading(data)
  {
    var newData := StripLeading(data);
    var headerComment := HeaderComment(path);
    if StartsWith(newData, headerComment) then Unchanged
    else
      var content := "\n" + headerComment + "\n\n" + newData;
      if data != content then Write(content) else Unchanged
  }

  /** A greedy `.*` over text without line terminators stops at the first
      terminator after it. */
  lemma LineRunStopsAt(x: string, y: string)
    requires forall i :: 0 <= i < |x| ==> !IsLineTerminator(x[i])
    requires y != [] && IsLineTerminator(y[0])
    ensures LineRun(x + y) == |x|
  {
    assert (x + y)[|x|] == y[0];
  }

  /** A run of whitespace that ends at a non-whitespace character (or at the
      end) is exactly what `\s*` takes. */
  lemma SpaceRunIs(s: string, n: nat)
    requires n <= |s|
    requires forall i :: 0 <= i < n ==> IsJsSpace(s[i])
    requires n < |s| ==> !IsJsSpace(s[n])
    ensures SpaceRun(s) == n
  {
  }

  /** A run without line terminators that ends at a terminator is exactly
      what `.*` takes. */
  lemma LineRunIs(s: string, n: nat)
    requires n < |s| && IsLineTerminator(s[n])
    requires forall i :: 0 <= i < n ==> !IsLineTerminator(s[i])
    ensures LineRun(s) == n
  {
  }

  /** A line made of whitespace (up to `w`), "//", text without line
      terminators (`b` characters) and one terminator: `\s*` takes the
      whitespace, `.*` the text, and the line is a match exactly when the
      terminator is '\n'. */
  lemma CommentLineAt(s: string, w: nat, b: nat)
    requires w + 2 + b < |s|
    requires forall i :: 0 <= i < w ==> IsJsSpace(s[i])
    requires s[w] == '/' && s[w + 1] == '/'
    requires forall i :: w + 2 <= i < w + 2 + b ==> !IsLineTerminator(s[i])
    requires IsLineTerminator(s[w + 2 + b])
    ensures SpaceRun(s) == w
    ensures s[w + 2 + b] == '\n' ==> CommentLine(s) == Some(w + b + 3)
    ensures s[w + 2 + b] != '\n' ==> CommentLine(s) == None
  {
    SpaceRunIs(s, w);
    LineRunFrom(s, w + 2, b);
    CommentLineSettled(s, w, b);
  }

  /** `CommentLine` once both runs are known and end inside `s`. */
  lemma CommentLineSettled(s: string, w: nat, b: nat)
    requires SpaceRun(s) == w && SlashesAt(s, w)
    requires LineRun(s[w + 2..]) == b && w + 2 + b < |s|
    ensures s[w + 2 + b] == '\n' ==> CommentLine(s) == Some(w + b + 3)
    ensures s[w + 2 + b] != '\n' ==> CommentLine(s) == None
  {
    CommentLineFound(s, w, w + 2 + b);
    if s[w + 2 + b] == '\n' {
      OptionIs(CommentLine(s), w + b + 3);
    }
  }

  /** `LineRunIs` for the text from position `k` on. */
  lemma LineRunFrom(s: string, k: nat, b: nat)
    requires k + b < |s| && IsLineTerminator(s[k + b])
    requires forall i :: k <= i < k + b ==> !IsLineTerminator(s[i])
    ensures LineRun(s[k..]) == b
  {
    var x := s[k..];
    forall i | 0 <= i < b
      ensures !IsLineTerminator(x[i])
    {
      assert x[i] == s[k + i];
    }
    assert x[b] == s[k + b];
    LineRunIs(x, b);
  }

  /** `CommentLine` once its `\s*` and `.*` runs are known. */
  lemma CommentLineFound(s: string, w: nat, t: nat)
    requires w == SpaceRun(s) && SlashesAt(s, w)
    requires t == w + 2 + LineRun(s[w + 2..])
    ensures CommentLine(s).Some? <==> t < |s| && s[t] == '\n'
    ensures CommentLine(s).Some? ==> CommentLine(s).value == t + 1
  {
  }

  lemma OptionIs(r: Option<nat>, k: nat)
    requires r.Some? && r.value == k
    ensures r == Some(k)
  {
  }

  /** The shape `spaces + "//" + body + [term] + rest`, by position. */
  lemma CommentLineShape(spaces: string, body: string, term: char, rest: string)
    requires forall i :: 0 <= i < |spaces| ==> IsJsSpace(spaces[i])
    requires forall i :: 0 <= i < |body| ==> !IsLineTerminator(body[i])
    requires IsLineTerminator(term)
    ensures var s := spaces + "//" + body + [term] + rest;
      SpaceRun(s) == |spaces|
      && (term == '\n' ==> CommentLine(s) == Some(|spaces| + |body| + 3))
      && (term != '\n' ==> CommentLine(s) == None)
  {
    var s := spaces + "//" + body + [term] + rest;
    var w := |spaces|;
    assert forall i :: 0 <= i < w ==> s[i] == spaces[i];
    assert s[w] == '/' && s[w + 1] == '/';
    assert forall i :: w + 2 <= i < w + 2 + |body| ==> s[i] == body[i - w - 2];
    assert s[w + 2 + |body|] == term;
    CommentLineAt(s, w, |body|);
  }

  /** Every leading line made of whitespace, "//", any text and "\n" is
      removed, whatever the text says. */
  lemma StripRemovesCommentLine(spaces: string, body: string, rest: string)
    requires forall i :: 0 <= i < |spaces| ==> IsJsSpace(spaces[i])
    requires forall i :: 0 <= i < |body| ==> !IsLineTerminator(body[i])
    ensures StripLeading(spaces + "//" + body + "\n" + rest) == StripLeading(rest)
  {
    CommentLineShape(spaces, body, '\n', rest);
    var line := spaces + "//" + body + "\n";
    assert spaces + "//" + body + "\n" + rest == line + rest;
    assert (line + rest)[|line|..] == rest;
  }

  /** A comment line ended by "\r\n" is not matched: `.` stops at '\r', so
      the line survives the strip and only the whitespace before it goes. */
  lemma CrlfCommentLineKept(spaces: string, body: string, rest: string)
    requires forall i :: 0 <= i < |spaces| ==> IsJsSpace(spaces[i])
    requires forall i :: 0 <= i < |body| ==> !IsLineTerminator(body[i])
    ensures var line := "//" + body + "\r\n" + rest;
      StripLeading(spaces + line) == line
  {
    CrlfLineAt(body, rest);
    LineAfterSpacesKept(spaces, "//" + body + "\r\n" + rest, |body|);
  }

  /** Whitespace, then "//", `b` characters of text and a terminator other
      than '\n': only the whitespace is stripped. */
  lemma LineAfterSpacesKept(spaces: string, line: string, b: nat)
    requires forall i :: 0 <= i < |spaces| ==> IsJsSpace(spaces[i])
    requires |line| > b + 2 && line[0] == '/' && line[1] == '/'
    requires forall i :: 2 <= i < 2 + b ==> !IsLineTerminator(line[i])
    requires IsLineTerminator(line[2 + b]) && line[2 + b] != '\n'
    ensures StripLeading(spaces + line) == line
  {
    var s := spaces + line;
    LineAfterSpaces(spaces, line, b);
    StripAfterLines(s);
    SliceAfterPrefix(spaces, line, |spaces|);
    assert line[0..] == line;
  }

  /** The same text seen by the comment-line match: `\s*` takes the
      whitespace, and the line is no match. */
  lemma LineAfterSpaces(spaces: string, line: string, b: nat)
    requires forall i :: 0 <= i < |spaces| ==> IsJsSpace(spaces[i])
    requires |line| > b + 2 && line[0] == '/' && line[1] == '/'
    requires forall i :: 2 <= i < 2 + b ==> !IsLineTerminator(line[i])
    requires IsLineTerminator(line[2 + b]) && line[2 + b] != '\n'
    ensures SpaceRun(spaces + line) == |spaces| && CommentLine(spaces + line).None?
  {
    var s := spaces + line;
    var w := |spaces|;
    forall i | 0 <= i < w ensures IsJsSpace(s[i]) {
      assert s[i] == spaces[i];
    }
    forall i | w + 2 <= i < w + 2 + b ensures !IsLineTerminator(s[i]) {
      assert s[i] == line[i - w];
    }
    assert s[w] == line[0] && s[w + 1] == line[1] && s[w + 2 + b] == line[2 + b];
    CommentLineAt(s, w, b);
  }

  /** The characters of a comment line ended by "\r\n", by position. */
  lemma CrlfLineAt(body: string, rest: string)
    requires forall i :: 0 <= i < |body| ==> !IsLineTerminator(body[i])
    ensures var line := "//" + body + "\r\n" + rest;
      |line| > |body| + 2 && line[0] == '/' && line[1] == '/' && line[2 + |body|] == '\r'
      && IsLineTerminator(line[2 + |body|])
      && forall i :: 2 <= i < 2 + |body| ==> !IsLineTerminator(line[i])
  {
    var line := "//" + body + "\r\n" + rest;
    assert forall i :: 2 <= i < 2 + |body| ==> line[i] == body[i - 2];
  }

  /** Text that starts with neither whitespace nor a complete comment line
      is left as it is. */
  lemma StripLeadingFixedPoint(s: string)
    requires s == [] || !IsJsSpace(s[0])
    requires CommentLine(s).None?
    ensures StripLeading(s) == s
  {
    assert SpaceRun(s) == 0;
    assert s[0..] == s;
  }

  /** A whole match of the group `\s*\/\/.*\n`: whitespace, "//", text
      without line terminators, and '\n'. */
  predicate IsCommentLineText(l: string) {
    var w := SpaceRun(l);
    w + 3 <= |l| && SlashesAt(l, w) && l[|l| - 1] == '\n'
    && forall i :: w + 2 <= i < |l| - 1 ==> !IsLineTerminator(l[i])
  }

  /** The line a comment-line match takes is a comment line on its own. */
  lemma CommentLineText(s: string, n: nat)
    requires CommentLine(s) == Some(n)
    ensures n <= |s| && IsCommentLineText(s[..n])
  {
    var w := SpaceRun(s);
    var l := s[..n];
    var b := LineRun(s[w + 2..]);
    assert n == w + 3 + b;
    assert forall i :: 0 <= i < w ==> l[i] == s[i];
    SpaceRunIs(l, w);
    forall i | w + 2 <= i < n - 1
      ensures !IsLineTerminator(l[i])
    {
      assert l[i] == s[w + 2..][i - (w + 2)];
    }
  }

  /** The comment lines at the head of `s`, in order, each taken where the
      previous one ends, up to the first place where none follows. */
  function LeadingCommentLines(s: string): (lines: seq<string>)
    ensures forall i :: 0 <= i < |lines| ==> IsCommentLineText(lines[i])
    ensures var k := |Concat(lines)|;
      k <= |s| && s[..k] == Concat(lines) && CommentLine(s[k..]).None?
    decreases |s|
  {
    match CommentLine(s)
    case Some(n) =>
      var more := LeadingCommentLines(s[n..]);
      LeadingCommentLinesCons(s, n, more);
      [s[..n]] + more
    case None =>
      assert s[0..] == s;
      assert Concat<char>([]) == [];
      []
  }

  /** The line taken at the head, in front of the lines found after it, are
      the lines found in `s`. */
  lemma LeadingCommentLinesCons(s: string, n: nat, more: seq<string>)
    requires CommentLine(s) == Some(n)
    requires forall i :: 0 <= i < |more| ==> IsCommentLineText(more[i])
    requires var k := |Concat(more)|;
      k <= |s[n..]| && s[n..][..k] == Concat(more) && CommentLine(s[n..][k..]).None?
    ensures var lines := [s[..n]] + more;
      (forall i :: 0 <= i < |lines| ==> IsCommentLineText(lines[i]))
      && var k := |Concat(lines)|;
      k <= |s| && s[..k] == Concat(lines) && CommentLine(s[k..]).None?
  {
    LeadingCommentLinesStep(s, n, more);
    LeadingCommentLinesPrefix(s, n, more);
    ConcatCons(s[..n], more);
    LeadingCommentLinesTail(s, n, |Concat(more)|, |Concat([s[..n]] + more)|);
  }

  /** What follows the lines found after the head line follows all of them. */
  lemma LeadingCommentLinesTail(s: string, n: nat, k: nat, m: nat)
    requires m == n + k <= |s|
    requires CommentLine(s[n..][k..]).None?
    ensures CommentLine(s[m..]).None?
  {
    assert s[n..][k..] == s[m..];
  }

  /** Once no comment line is at the head, only whitespace is removed. */
  lemma StripAfterLines(s: string)
    requires CommentLine(s).None?
    ensures StripLeading(s) == s[SpaceRun(s)..]
  {
  }

  /** `StripLeading` removes exactly the leading comment lines and then the
      whitespace after them: the removed prefix is comment lines followed by
      whitespace, and the rest is kept. */
  lemma StripLeadingRemovesLines(s: string)
    ensures var k := |Concat(LeadingCommentLines(s))|;
      k <= |s| && StripLeading(s) == s[k + SpaceRun(s[k..])..]
  {
    StripLeadingRemovedLength(s);
    RemovedSuffix(s, |Concat(LeadingCommentLines(s))|);
  }

  /** Once the stripped length is known, the stripped text is the input from
      the end of the first `k` characters and the whitespace after them. */
  lemma RemovedSuffix(s: string, k: nat)
    requires k <= |s| && |StripLeading(s)| == |s| - k - SpaceRun(s[k..])
    ensures StripLeading(s) == s[k + SpaceRun(s[k..])..]
  {
    SuffixFrom(s, StripLeading(s), k + SpaceRun(s[k..]));
  }

  /** A suffix of `s` is `s` from where its length says it starts. */
  lemma SuffixFrom(s: string, r: string, m: nat)
    requires |r| <= |s| && r == s[|s| - |r|..] && m == |s| - |r|
    ensures r == s[m..]
  {
  }

  /** The length form of `StripLeadingRemovesLines`, by induction. */
  lemma {:induction false} StripLeadingRemovedLength(s: string)
    ensures var k := |Concat(LeadingCommentLines(s))|;
      k <= |s| && |StripLeading(s)| == |s| - k - SpaceRun(s[k..])
    decreases |s|
  {
    match CommentLine(s)
    case Some(n) =>
      var more := LeadingCommentLines(s[n..]);
      assert LeadingCommentLines(s) == [s[..n]] + more;
      StripLeadingRemovedLength(s[n..]);
      ConcatCons(s[..n], more);
      LeadingCommentLinesRest(s, n, |Concat(more)|, |Concat(LeadingCommentLines(s))|);
    case None =>
      assert LeadingCommentLines(s) == [];
      assert Concat<char>([]) == [];
      assert s[0..] == s;
      StripAfterLines(s);
  }

  /** The line taken at the head, in front of comment lines, gives comment lines. */
  lemma LeadingCommentLinesStep(s: string, n: nat, more: seq<string>)
    requires CommentLine(s) == Some(n)
    requires forall i :: 0 <= i < |more| ==> IsCommentLineText(more[i])
    ensures n <= |s|
    ensures var lines := [s[..n]] + more;
      forall i :: 0 <= i < |lines| ==> IsCommentLineText(lines[i])
  {
    var lines := [s[..n]] + more;
    CommentLineText(s, n);
    assert forall i :: 1 <= i < |lines| ==> lines[i] == more[i - 1];
  }

  /** The removed lines grow by the line taken at the head. */
  lemma LeadingCommentLinesPrefix(s: string, n: nat, more: seq<string>)
    requires CommentLine(s) == Some(n)
    requires var k := |Concat(more)|;
      n + k <= |s| && s[n..][..k] == Concat(more)
    ensures var k := |Concat([s[..n]] + more)|;
      k <= |s| && s[..k] == Concat([s[..n]] + more)
  {
    SliceAfter(s, n, Concat(more));
    ConcatCons(s[..n], more);
  }

  /** Stripping after the head line and `k` more characters. */
  lemma LeadingCommentLinesRest(s: string, n: nat, k: nat, m: nat)
    requires CommentLine(s) == Some(n)
    requires m == n + k <= |s|
    requires |StripLeading(s[n..])| == |s[n..]| - k - SpaceRun(s[n..][k..])
    ensures |StripLeading(s)| == |s| - m - SpaceRun(s[m..])
  {
    assert s[n..][k..] == s[m..];
    StripSkipsCommentLine(s, n);
  }

  /** Slicing arithmetic for a prefix `c` found after position `n`. */
  lemma SliceAfter(s: string, n: nat, c: string)
    requires n + |c| <= |s| && s[n..][..|c|] == c
    ensures s[..n + |c|] == s[..n] + c
    ensures s[n..][|c|..] == s[n + |c|..]
  {
    assert s[..n + |c|] == s[..n] + s[n..n + |c|];
  }

  /** Stripping "\n" + s, where s starts with neither whitespace nor a
      complete comment line, gives back s. */
  lemma StripNewlineThen(s: string)
    requires s == [] || !IsJsSpace(s[0])
    requires CommentLine(s).None?
    ensures StripLeading("\n" + s) == s
  {
    var x := "\n" + s;
    assert x[1..] == s;
    assert SpaceRun(x) == 1 by {
      assert SpaceRun(x) == 1 + SpaceRun(s);
    }
    assert SpaceRun(s) == 0;
    assert s[0..] == s;
    if SlashesAt(s, 0) {
      assert x[3..] == s[2..];
    }
    assert CommentLine(x).None?;
  }

  /** The header holds a '\n' only where the path does. */
  lemma HeaderHasNoNewline(path: string)
    requires '\n' !in path
    ensures '\n' !in HeaderComment(path)
  {
    assert HeaderComment(path) == "// " + NormalizePath(path);
  }

  /** The script's output starts with "\n" and the header's "//". */
  lemma OutputShape(h: string, s: string)
    requires |h| >= 3 && h[..3] == "// "
    ensures var c := "\n" + h + "\n\n" + s;
      SpaceRun(c) == 1 && SlashesAt(c, 1) && c[3..] == h[2..] + ("\n\n" + s)
  {
    var c := "\n" + h + "\n\n" + s;
    assert c[1..][0] == h[..3][0];
    assert SpaceRun(c) == 1 + SpaceRun(c[1..]);
    assert c[2] == h[..3][1];
  }

  /** A single-line header after the leading "\n" is one complete comment
      line, ended by the first of the two newlines. */
  lemma HeaderLineMatches(h: string, s: string)
    requires |h| >= 3 && h[..3] == "// "
    requires forall i :: 0 <= i < |h| ==> !IsLineTerminator(h[i])
    ensures CommentLine("\n" + h + "\n\n" + s) == Some(|h| + 2)
  {
    var c := "\n" + h + "\n\n" + s;
    OutputShape(h, s);
    var x := h[2..];
    assert forall j :: 0 <= j < |x| ==> !IsLineTerminator(x[j]) by {
      forall j | 0 <= j < |x| ensures !IsLineTerminator(x[j]) {
        assert x[j] == h[j + 2];
      }
    }
    LineRunStopsAt(x, "\n\n" + s);
    assert c[|h| + 1] == '\n';
  }

  lemma StripSkipsCommentLine(c: string, n: nat)
    requires CommentLine(c) == Some(n)
    ensures n <= |c| && StripLeading(c) == StripLeading(c[n..])
  {
  }

  /** `StripSkipsCommentLine` with the text after the line named. */
  lemma StripSkipsCommentLineTo(c: string, n: nat, t: string)
    requires CommentLine(c) == Some(n) && n <= |c| && c[n..] == t
    ensures StripLeading(c) == StripLeading(t)
  {
    StripSkipsCommentLine(c, n);
  }

  /** Stripping removes the single-line header and the first newline after it. */
  lemma StripHeaderLine(h: string, s: string)
    requires |h| >= 3 && h[..3] == "// "
    requires forall i :: 0 <= i < |h| ==> !IsLineTerminator(h[i])
    ensures StripLeading("\n" + h + "\n\n" + s) == StripLeading("\n" + s)
  {
    var c := "\n" + h + "\n\n" + s;
    HeaderLineMatches(h, s);
    HeaderLineTail(h, s);
    StripSkipsCommentLineTo(c, |h| + 2, "\n" + s);
  }

  /** After the header line and its newline comes the blank line's newline. */
  lemma HeaderLineTail(h: string, s: string)
    ensures ("\n" + h + "\n\n" + s)[|h| + 2..] == "\n" + s
  {
    SliceOfJoin("\n" + h + "\n\n", s, |h| + 2);
    SliceAfterPrefix("\n" + h, "\n\n", |h| + 2);
    assert "\n\n"[1..] == "\n";
  }

  /** With a single-line header, stripping the script's output removes the
      header line and the blank line and gives back the stripped text. */
  lemma StripOwnOutputSingleLine(h: string, s: string)
    requires |h| >= 3 && h[..3] == "// "
    requires s == [] || !IsJsSpace(s[0])
    requires CommentLine(s).None?
    requires forall i :: 0 <= i < |h| ==> !IsLineTerminator(h[i])
    ensures StripLeading("\n" + h + "\n\n" + s) == s
  {
    StripHeaderLine(h, s);
    StripNewlineThen(s);
  }

  /** When the header spans several lines (a path with '\r', U+2028 or
      U+2029), the first header line is not a comment line to the strip, and
      the stripped output still starts with the header. */
  lemma StripOwnOutputMultiLine(path: string, s: string, i: nat)
    requires '\n' !in path
    requires i < |HeaderComment(path)| && IsLineTerminator(HeaderComment(path)[i])
    ensures StartsWith(StripLeading("\n" + HeaderComment(path) + "\n\n" + s), HeaderComment(path))
  {
    var h := HeaderComment(path);
    var c := "\n" + h + "\n\n" + s;
    MultiLineHeaderNoMatch(path, s, i);
    StripAfterLines(c);
    JoinAssoc("\n", h, "\n\n" + s);
    JoinAssoc("\n" + h, "\n\n", s);
    SliceAfterPrefix("\n", h + ("\n\n" + s), 1);
    assert (h + ("\n\n" + s))[0..] == h + ("\n\n" + s);
    StartsWithJoin(h, "\n\n" + s);
  }

  /** The first line of such a header ends at a terminator other than '\n',
      so it is no comment line to the strip, and `\s*` takes only the
      leading "\n". */
  lemma MultiLineHeaderNoMatch(path: string, s: string, i: nat)
    requires '\n' !in path
    requires i < |HeaderComment(path)| && IsLineTerminator(HeaderComment(path)[i])
    ensures var c := "\n" + HeaderComment(path) + "\n\n" + s;
      SpaceRun(c) == 1 && CommentLine(c).None?
  {
    var h := HeaderComment(path);
    var c := "\n" + h + "\n\n" + s;
    HeaderHasNoNewline(path);
    OutputShape(h, s);
    assert i >= 3 by {
      assert h[..3] == "// ";
    }
    var n := LineRun(c[3..]);
    assert c[3..][i - 2] == h[i];
    assert n <= i - 2;
    assert c[3 + n] == h[2 + n];
  }

  /** Running the script on its own output writes nothing: the result is a
      fixed point (for paths without a newline). */
  lemma AddHeaderIdempotent(path: string, data: string)
    requires '\n' !in path
    requires AddHeaderToFile(path, data).Write?
    ensures AddHeaderToFile(path, AddHeaderToFile(path, data).content) == Unchanged
  {
    var h := HeaderComment(path);
    var s := StripLeading(data);
    if i :| 0 <= i < |h| && IsLineTerminator(h[i]) {
      StripOwnOutputMultiLine(path, s, i);
    } else {
      assert h[..3] == "// ";
      StripOwnOutputSingleLine(h, s);
    }
  }

  /** With a newline in the path the header spans two lines: the strip
      removes only its first line, the text no longer starts with the header,
      and a second run writes again. */
  lemma NewlineInPathNotIdempotent(path: string, data: string, i: nat)
    requires i + 1 < |path| && path[i] == '\n'
    requires forall j :: 0 <= j < i ==> !IsLineTerminator(path[j])
    requires !IsJsSpace(path[i + 1]) && path[i + 1] != '/' && path[i + 1] != '\\'
    requires AddHeaderToFile(path, data).Write?
    ensures AddHeaderToFile(path, AddHeaderToFile(path, data).content).Write?
  {
    var s := StripLeading(data);
    var h := HeaderComment(path);
    var rest := NormalizePath(path)[i + 1..] + "\n\n" + s;
    var c := AddHeaderToFile(path, data).content;
    assert c == "\n" + h + "\n\n" + s;
    NewlinePathStrip(path, s, i);
    assert StripLeading(c) == rest;
    NotStartsWithHeader(rest, h);
    var c2 := "\n" + h + "\n\n" + rest;
    assert c2 != c by {
      assert |c2| > |c|;
    }
    assert AddHeaderToFile(path, c) == Write(c2);
  }

  /** Stripping the output for such a path leaves the header's second line. */
  lemma NewlinePathStrip(path: string, s: string, i: nat)
    requires i + 1 < |path| && path[i] == '\n'
    requires forall j :: 0 <= j < i ==> !IsLineTerminator(path[j])
    requires !IsJsSpace(path[i + 1]) && path[i + 1] != '/' && path[i + 1] != '\\'
    ensures var rest := NormalizePath(path)[i + 1..] + "\n\n" + s;
      rest[0] == path[i + 1]
      && StripLeading("\n" + HeaderComment(path) + "\n\n" + s) == rest
  {
    var n := NormalizePath(path);
    var rest := n[i + 1..] + "\n\n" + s;
    NewlinePathFirstLine(path, s, i);
    assert rest[0] == path[i + 1];
    assert SpaceRun(rest) == 0;
    assert rest[0..] == rest;
    assert CommentLine(rest).None?;
    StripLeadingFixedPoint(rest);
  }

  /** The header's first line is a complete comment line, and the strip
      goes on after it. */
  lemma NewlinePathFirstLine(path: string, s: string, i: nat)
    requires i + 1 < |path| && path[i] == '\n'
    requires forall j :: 0 <= j < i ==> !IsLineTerminator(path[j])
    ensures var c := "\n" + HeaderComment(path) + "\n\n" + s;
      StripLeading(c) == StripLeading(NormalizePath(path)[i + 1..] + "\n\n" + s)
  {
    var n := NormalizePath(path);
    var h := HeaderComment(path);
    var c := "\n" + h + "\n\n" + s;
    NewlinePathComment(path, s, i);
    NewlinePathTail(path, s, i);
    StripSkipsCommentLineTo(c, i + 5, n[i + 1..] + "\n\n" + s);
  }

  lemma NewlinePathTail(path: string, s: string, i: nat)
    requires i < |path|
    ensures ("\n" + HeaderComment(path) + "\n\n" + s)[i + 5..] == NormalizePath(path)[i + 1..] + "\n\n" + s
  {
    var n := NormalizePath(path);
    assert HeaderComment(path) == "// " + n;
    OutputTail(n, s, i);
  }

  /** The script's output for a normalised path `n`, from header position `i + 4` on. */
  lemma OutputTail(n: string, s: string, i: nat)
    requires i < |n|
    ensures ("\n" + ("// " + n) + "\n\n" + s)[i + 5..] == n[i + 1..] + "\n\n" + s
  {
    var h := "// " + n;
    var x := "\n" + h;
    JoinAssoc(x, "\n\n", s);
    SliceAfterPrefix("\n", h, i + 5);
    SliceAfterPrefix("// ", n, i + 4);
    SliceOfJoin(x, "\n\n" + s, i + 5);
    JoinAssoc(n[i + 1..], "\n\n", s);
  }

  lemma SliceOfJoin(x: string, y: string, k: nat)
    requires k <= |x|
    ensures (x + y)[k..] == x[k..] + y
  {
  }

  lemma SliceAfterPrefix(p: string, x: string, k: nat)
    requires |p| <= k <= |p| + |x|
    ensures (p + x)[k..] == x[k - |p|..]
  {
  }

  /** `\s*` takes the leading newline, and `.*` the header up to the path's newline. */
  lemma NewlinePathComment(path: string, s: string, i: nat)
    requires i + 1 < |path| && path[i] == '\n'
    requires forall j :: 0 <= j < i ==> !IsLineTerminator(path[j])
    ensures CommentLine("\n" + HeaderComment(path) + "\n\n" + s) == Some(i + 5)
  {
    var n := NormalizePath(path);
    OutputIndices(n, s);
    assert HeaderComment(path) == "// " + n;
    NewlinePathLine(path, n, i);
    CommentLineBefore("\n" + ("// " + n) + "\n\n" + s, n, i);
  }

  /** The script's output for a normalised path `n`, by position. */
  lemma OutputIndices(n: string, s: string)
    ensures var c := "\n" + ("// " + n) + "\n\n" + s;
      |c| > |n| + 4 && c[0] == '\n' && c[1] == '/' && c[2] == '/' && c[3] == ' '
      && forall j :: 0 <= j < |n| ==> c[4 + j] == n[j]
  {
  }

  /** The normalised path keeps the newline at `i` and the characters before it. */
  lemma NewlinePathLine(path: string, n: string, i: nat)
    requires n == NormalizePath(path)
    requires i + 1 < |path| && path[i] == '\n'
    requires forall j :: 0 <= j < i ==> !IsLineTerminator(path[j])
    ensures i < |n| && n[i] == '\n' && forall j :: 0 <= j < i ==> !IsLineTerminator(n[j])
  {
  }

  /** Output whose header text has its first newline at `i` starts with a
      comment line of `i + 5` characters. */
  lemma CommentLineBefore(c: string, n: string, i: nat)
    requires i < |n| && n[i] == '\n' && forall j :: 0 <= j < i ==> !IsLineTerminator(n[j])
    requires |c| > |n| + 4 && c[0] == '\n' && c[1] == '/' && c[2] == '/' && c[3] == ' '
    requires forall j :: 0 <= j < |n| ==> c[4 + j] == n[j]
    ensures CommentLine(c) == Some(i + 5)
  {
    forall k | 3 <= k < 4 + i ensures !IsLineTerminator(c[k]) {
      if k > 3 {
        assert c[4 + (k - 4)] == n[k - 4];
      }
    }
    assert c[4 + i] == n[i];
    CommentLineAt(c, 1, i + 1);
  }

  lemma NotStartsWithHeader(t: string, h: string)
    requires t != [] && t[0] != '/' && h != [] && h[0] == '/'
    ensures !StartsWith(t, h)
  {
  }
}
