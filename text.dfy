/** String primitives the bot relies on: Python's whitespace test, `str.strip`,
    `str.split` / `re.split` on single characters, `str.join` and the recurring
    "strip every piece and drop the blank ones" list comprehension. */
module Text {

  /** `str.isspace()` for one character; Python's regex class `\s` on str
      patterns tests the same set. */
  predicate IsSpace(c: char) {
    c == ' ' || ('\t' <= c <= '\r') || ('\U{1C}' <= c <= '\U{1F}')
    || c == '\U{85}' || c == '\U{A0}' || c == '\U{1680}'
    || ('\U{2000}' <= c <= '\U{200A}') || c == '\U{2028}' || c == '\U{2029}'
    || c == '\U{202F}' || c == '\U{205F}' || c == '\U{3000}'
  }

  /** The regex class `[A-Za-z]`. */
  predicate IsLetter(c: char) {
    ('A' <= c <= 'Z') || ('a' <= c <= 'z')
  }

  /** The regex class `\d`, restricted to ASCII digits. */
  predicate IsDigit(c: char) {
    '0' <= c <= '9'
  }

  /** The character classes the bot's regular expressions scan over. */
  datatype CharClass = Space | Digit | Letter | OneOf(chars: set<char>)

  predicate InClass(c: char, k: CharClass) {
    match k
    case Space => IsSpace(c)
    case Digit => IsDigit(c)
    case Letter => IsLetter(c)
    case OneOf(chars) => c in chars
  }

  /** Where a greedy `k*` that starts at index `i` of `s` stops. */
  function Scan(s: string, i: nat, k: CharClass): (j: nat)
    requires i <= |s|
    ensures i <= j <= |s|
    ensures j < |s| ==> !InClass(s[j], k)
    decreases |s| - i
  {
    if i == |s| || !InClass(s[i], k) then i else Scan(s, i + 1, k)
  }

  /** Everything a scan passes over is in its class. */
  lemma {:induction false} ScanAll(s: string, i: nat, k: CharClass)
    requires i <= |s|
    ensures forall t :: i <= t < Scan(s, i, k) ==> InClass(s[t], k)
    decreases |s| - i
  {
    if i < |s| && InClass(s[i], k) {
      ScanAll(s, i + 1, k);
    }
  }

  /** A greedy scan over a run of class `k` stops exactly where the run ends. */
  lemma {:induction false} ScanRun(s: string, i: nat, j: nat, k: CharClass)
    requires i <= j <= |s|
    requires forall t :: i <= t < j ==> InClass(s[t], k)
    requires j == |s| || !InClass(s[j], k)
    ensures Scan(s, i, k) == j
    decreases j - i
  {
    if i < j {
      ScanRun(s, i + 1, j, k);
    }
  }

  predicate AllSpace(s: string) {
    forall i :: 0 <= i < |s| ==> IsSpace(s[i])
  }

  /** Neither end of `s` is whitespace. */
  predicate IsStripped(s: string) {
    s == [] || (!IsSpace(s[0]) && !IsSpace(s[|s| - 1]))
  }

  /** No character of `s` is in `seps`. */
  predicate NoneIn(s: string, seps: set<char>) {
    forall i :: 0 <= i < |s| ==> s[i] !in seps
  }

  /** Python's `str.lstrip()`: the leading whitespace removed. */
  function TrimStart(s: string): (r: string)
    ensures |r| <= |s|
    ensures r == [] || !IsSpace(r[0])
  {
    if s != [] && IsSpace(s[0]) then TrimStart(s[1..]) else s
  }

  /** Python's `str.rstrip()`: the trailing whitespace removed. */
  function TrimEnd(s: string): (r: string)
    ensures |r| <= |s|
    ensures r == [] || !IsSpace(r[|r| - 1])
    ensures r != [] ==> r[0] == s[0]
    ensures s != [] && !IsSpace(s[0]) ==> r != []
  {
    if s != [] && IsSpace(s[|s| - 1]) then TrimEnd(s[..|s| - 1]) else s
  }

  /** Python's `str.strip()`. */
  function Strip(s: string): (r: string)
    ensures IsStripped(r)
    ensures r == [] <==> AllSpace(s)
  {
    TrimStartAllSpace(s);
    TrimEnd(TrimStart(s))
  }

  /** Only a text of whitespace loses everything to `lstrip()`. */
  lemma {:induction false} TrimStartAllSpace(s: string)
    ensures TrimStart(s) == [] <==> AllSpace(s)
  {
    if s != [] && IsSpace(s[0]) {
      TrimStartAllSpace(s[1..]);
      if AllSpace(s[1..]) {
        forall i | 0 <= i < |s| ensures IsSpace(s[i]) {
          if i > 0 { assert s[i] == s[1..][i - 1]; }
        }
      }
      if AllSpace(s) {
        forall i | 0 <= i < |s| - 1 ensures IsSpace(s[1..][i]) {
          assert s[1..][i] == s[i + 1];
        }
      }
    }
  }

  /** `lstrip()` leaves a suffix. */
  lemma {:induction false} TrimStartSuffix(s: string)
    ensures TrimStart(s) == s[|s| - |TrimStart(s)|..]
  {
    if s != [] && IsSpace(s[0]) {
      TrimStartSuffix(s[1..]);
      assert s[1..][|s| - 1 - |TrimStart(s)|..] == s[|s| - |TrimStart(s)|..];
    }
  }

  /** `rstrip()` leaves a prefix. */
  lemma {:induction false} TrimEndPrefix(s: string)
    ensures TrimEnd(s) == s[..|TrimEnd(s)|]
  {
    if s != [] && IsSpace(s[|s| - 1]) {
      TrimEndPrefix(s[..|s| - 1]);
    }
  }

  /** Stripping only removes characters: what is left was in the text. */
  lemma StripFrom(s: string)
    ensures forall i :: 0 <= i < |Strip(s)| ==> Strip(s)[i] in s
  {
    var t := TrimStart(s);
    TrimStartSuffix(s);
    TrimEndPrefix(t);
    var k := |s| - |t|;
    forall i | 0 <= i < |Strip(s)|
      ensures Strip(s)[i] in s
    {
      assert Strip(s)[i] == t[i] == s[k + i];
    }
  }

  /** A stripped text is its own strip. */
  lemma StripStripped(x: string)
    requires IsStripped(x)
    ensures Strip(x) == x
  {
    StripPadded("", x, "");
    assert "" + x + "" == x;
  }

  /** `lstrip()` removes exactly a whitespace prefix. */
  lemma {:induction false} TrimStartPadded(pre: string, y: string)
    requires AllSpace(pre) && (y == [] || !IsSpace(y[0]))
    ensures TrimStart(pre + y) == y
  {
    if pre != [] {
      assert (pre + y)[0] == pre[0];
      assert (pre + y)[1..] == pre[1..] + y;
      assert AllSpace(pre[1..]) by {
        forall i | 0 <= i < |pre| - 1 ensures IsSpace(pre[1..][i]) { assert pre[1..][i] == pre[i + 1]; }
      }
      TrimStartPadded(pre[1..], y);
    } else {
      assert pre + y == y;
    }
  }

  /** `rstrip()` removes exactly a whitespace suffix. */
  lemma {:induction false} TrimEndPadded(y: string, post: string)
    requires AllSpace(post) && (y == [] || !IsSpace(y[|y| - 1]))
    ensures TrimEnd(y + post) == y
  {
    if post != [] {
      var p := post[..|post| - 1];
      assert (y + post)[..|y + post| - 1] == y + p;
      assert (y + post)[|y + post| - 1] == post[|post| - 1];
      assert AllSpace(p) by {
        forall i | 0 <= i < |p| ensures IsSpace(p[i]) { assert p[i] == post[i]; }
      }
      TrimEndPadded(y, p);
    } else {
      assert y + post == y;
    }
  }

  /** Stripping removes exactly surrounding whitespace: `s.strip()` of a text
      padded with whitespace on both sides gives the text back. */
  lemma StripPadded(pre: string, x: string, post: string)
    requires AllSpace(pre) && AllSpace(post) && IsStripped(x)
    ensures Strip(pre + x + post) == x
  {
    var s := pre + x + post;
    if x == [] {
      assert AllSpace(s) by {
        forall i | 0 <= i < |s| ensures IsSpace(s[i]) {
          if i < |pre| { assert s[i] == pre[i]; } else { assert s[i] == post[i - |pre|]; }
        }
      }
    } else {
      assert s == pre + (x + post);
      TrimStartPadded(pre, x + post);
      TrimEndPadded(x, post);
    }
  }

  /** Splitting on every character of `seps`: `str.split(c)` when `seps` is
      `{c}` and `re.split` with a pattern of single-character alternatives.
      There is one more piece than separators, and no piece holds one. */
  function SplitOn(s: string, seps: set<char>): (pieces: seq<string>)
    ensures |pieces| == CountIn(s, seps) + 1
  {
    if s == [] then [""]
    else if s[0] in seps then [""] + SplitOn(s[1..], seps)
    else
      var rest := SplitOn(s[1..], seps);
      [[s[0]] + rest[0]] + rest[1..]
  }

  /** No piece of a split holds a separator. */
  lemma {:induction false} SplitOnNoneIn(s: string, seps: set<char>)
    ensures forall i :: 0 <= i < |SplitOn(s, seps)| ==> NoneIn(SplitOn(s, seps)[i], seps)
  {
    if s != [] {
      SplitOnNoneIn(s[1..], seps);
      var rest := SplitOn(s[1..], seps);
      if s[0] !in seps {
        var first := [s[0]] + rest[0];
        assert forall t :: 1 <= t < |first| ==> first[t] == rest[0][t - 1];
        assert forall i :: 1 <= i < |SplitOn(s, seps)| ==> SplitOn(s, seps)[i] == rest[i];
      }
    }
  }

  /** How many characters of `s` are in `seps`. */
  function CountIn(s: string, seps: set<char>): nat {
    if s == [] then 0 else (if s[0] in seps then 1 else 0) + CountIn(s[1..], seps)
  }

  /** A text without separators is a single piece. */
  lemma {:induction false} SplitNone(s: string, seps: set<char>)
    requires NoneIn(s, seps)
    ensures SplitOn(s, seps) == [s]
  {
    if s != [] {
      SplitNone(s[1..], seps);
      assert [s[0]] + s[1..] == s;
    }
  }

  /** A separator cuts the text in two independent halves. */
  lemma {:induction false} SplitAt(a: string, c: char, b: string, seps: set<char>)
    requires c in seps
    ensures SplitOn(a + [c] + b, seps) == SplitOn(a, seps) + SplitOn(b, seps)
  {
    var s := a + [c] + b;
    if a == [] {
      assert s[1..] == b;
    } else {
      assert s[1..] == a[1..] + [c] + b;
      SplitAt(a[1..], c, b, seps);
      if a[0] !in seps {
        var rest := SplitOn(s[1..], seps);
        assert rest[0] == SplitOn(a[1..], seps)[0];
        assert rest[1..] == SplitOn(a[1..], seps)[1..] + SplitOn(b, seps);
      }
    }
  }

  /** Python's `sep.join(xs)`. */
  function Join(xs: seq<string>, sep: string): string {
    if |xs| == 0 then ""
    else if |xs| == 1 then xs[0]
    else Join(xs[..|xs| - 1], sep) + sep + xs[|xs| - 1]
  }

  /** Splitting undoes joining, when no joined piece holds the separator. */
  lemma {:induction false} SplitJoin(xs: seq<string>, c: char)
    requires |xs| > 0
    requires forall i :: 0 <= i < |xs| ==> NoneIn(xs[i], {c})
    ensures SplitOn(Join(xs, [c]), {c}) == xs
  {
    if |xs| == 1 {
      SplitNone(xs[0], {c});
    } else {
      var ys := xs[..|xs| - 1];
      SplitJoin(ys, c);
      assert Join(xs, [c]) == Join(ys, [c]) + [c] + xs[|xs| - 1];
      SplitAt(Join(ys, [c]), c, xs[|xs| - 1], {c});
      SplitNone(xs[|xs| - 1], {c});
      assert ys + [xs[|xs| - 1]] == xs;
    }
  }

  /** The pieces trimmed, blank ones dropped. */
  function NonBlank(pieces: seq<string>): (r: seq<string>)
    ensures |r| <= |pieces|
  {
    if pieces == [] then []
    else
      var rest := NonBlank(pieces[..|pieces| - 1]);
      var p := Strip(pieces[|pieces| - 1]);
      if p == [] then rest else rest + [p]
  }

  /** Every piece kept is non-empty and stripped. */
  lemma {:induction false} NonBlankTrimmed(pieces: seq<string>)
    ensures forall i :: 0 <= i < |NonBlank(pieces)| ==> NonBlank(pieces)[i] != [] && IsStripped(NonBlank(pieces)[i])
  {
    if pieces != [] {
      NonBlankTrimmed(pieces[..|pieces| - 1]);
    }
  }

  /** The comprehension works piece by piece, keeping their order. */
  lemma {:induction false} NonBlankAppend(a: seq<string>, b: seq<string>)
    ensures NonBlank(a + b) == NonBlank(a) + NonBlank(b)
  {
    if b != [] {
      var b' := b[..|b| - 1];
      NonBlankAppend(a, b');
      assert (a + b)[..|a + b| - 1] == a + b';
    } else {
      assert a + b == a;
    }
  }

  /** Stripping adds no character: pieces free of `seps` stay free of them. */
  lemma {:induction false} NonBlankNoneIn(pieces: seq<string>, seps: set<char>)
    requires forall i :: 0 <= i < |pieces| ==> NoneIn(pieces[i], seps)
    ensures forall i :: 0 <= i < |NonBlank(pieces)| ==> NoneIn(NonBlank(pieces)[i], seps)
  {
    if pieces != [] {
      var front := pieces[..|pieces| - 1];
      assert forall i :: 0 <= i < |front| ==> front[i] == pieces[i];
      NonBlankNoneIn(front, seps);
      StripFrom(pieces[|pieces| - 1]);
    }
  }

  /** Pieces that are already stripped and non-blank pass through unchanged. */
  lemma {:induction false} NonBlankKeeps(xs: seq<string>)
    requires forall i :: 0 <= i < |xs| ==> xs[i] != [] && IsStripped(xs[i])
    ensures NonBlank(xs) == xs
  {
    if xs != [] {
      var ys, x := xs[..|xs| - 1], xs[|xs| - 1];
      assert forall i :: 0 <= i < |ys| ==> ys[i] == xs[i];
      NonBlankKeeps(ys);
      StripStripped(x);
      assert NonBlank(xs) == NonBlank(ys) + [x];
      assert ys + [x] == xs;
    }
  }

  /** Reading back a `", "`-joined list of stripped, comma-free names by
      splitting on `,` and stripping gives the names again. */
  lemma {:induction false} CommaListReadBack(xs: seq<string>)
    requires forall i :: 0 <= i < |xs| ==> xs[i] != [] && IsStripped(xs[i]) && NoneIn(xs[i], {','})
    ensures NonBlank(SplitOn(Join(xs, ", "), {','})) == xs
  {
    if |xs| == 1 {
      SplitNone(xs[0], {','});
      NonBlankKeeps(xs);
    } else if |xs| > 1 {
      var ys := xs[..|xs| - 1];
      var x := xs[|xs| - 1];
      assert ys + [x] == xs;
      assert forall i :: 0 <= i < |ys| ==> ys[i] == xs[i];
      var j := Join(ys, ", ");
      assert Join(xs, ", ") == j + ", " + x;
      CommaListReadBack(ys);
      CommaListStep(j, x);
    }
  }

  /** Appending one more name to a `", "`-joined list appends it to what is read back. */
  lemma CommaListStep(j: string, x: string)
    requires x != [] && IsStripped(x) && NoneIn(x, {','})
    ensures NonBlank(SplitOn(j + ", " + x, {','})) == NonBlank(SplitOn(j, {','})) + [x]
  {
    assert j + ", " + x == j + [','] + (" " + x);
    CommaPiece(x);
    SplitAt(j, ',', " " + x, {','});
    NonBlankAppend(SplitOn(j, {','}), [" " + x]);
  }

  /** One `", "`-separated name, as the split leaves it, strips back to the name. */
  lemma CommaPiece(x: string)
    requires x != [] && IsStripped(x) && NoneIn(x, {','})
    ensures SplitOn(" " + x, {','}) == [" " + x]
    ensures NonBlank([" " + x]) == [x]
  {
    assert NoneIn(" " + x, {','});
    SplitNone(" " + x, {','});
    StripPadded(" ", x, "");
    assert " " + x + "" == " " + x;
    assert [" " + x][..0] == [];
  }

  /** The characters `str.splitlines()` breaks lines at. */
  const LineBreaks: set<char> :=
    {'\n', '\r', '\U{0B}', '\U{0C}', '\U{1C}', '\U{1D}', '\U{1E}', '\U{85}', '\U{2028}', '\U{2029}'}

  /** The lines of a text, trimmed, blank ones dropped. */
  function NonBlankLines(text: string): (lines: seq<string>)
    ensures forall i :: 0 <= i < |lines| ==> lines[i] != [] && IsStripped(lines[i])
  {
    NonBlankTrimmed(SplitOn(text, LineBreaks));
    NonBlank(SplitOn(text, LineBreaks))
  }
}
