/** The string normalisations the services apply before they compare: trimming and ASCII case folding. */
module Text {
  import opened Wrappers

  const JS_BLANKS: set<char> := {' ', '\t', '\n', '\r'}
  const SQL_BLANKS: set<char> := {' '}

  function TrimStart(s: string, blanks: set<char>): (r: string) {
    if s != [] && s[0] in blanks then TrimStart(s[1..], blanks) else s
  }

  function TrimEnd(s: string, blanks: set<char>): (r: string) {
    if s != [] && s[|s| - 1] in blanks then TrimEnd(s[..|s| - 1], blanks) else s
  }

  function Trim(s: string, blanks: set<char>): string {
    TrimEnd(TrimStart(s, blanks), blanks)
  }

  /** A trimmed, non-empty text or nothing. */
  function NormalizeOptional(value: Option<string>): (r: Option<string>)
    ensures r.Some? ==> r.value != "" && Trimmed(r.value, JS_BLANKS)
  {
    match value
    case None => None
    case Some(v) =>
      TrimTrims(v, JS_BLANKS);
      var t := Trim(v, JS_BLANKS);
      if t != "" then Some(t) else None
  }

  function UpperChar(c: char): char {
    if 'a' <= c <= 'z' then c - 'a' + 'A' else c
  }

  function LowerChar(c: char): char {
    if 'A' <= c <= 'Z' then c - 'A' + 'a' else c
  }

  function Upper(s: string): string {
    seq(|s|, i requires 0 <= i < |s| => UpperChar(s[i]))
  }

  function Lower(s: string): string {
    seq(|s|, i requires 0 <= i < |s| => LowerChar(s[i]))
  }

  /** A trimmed text has no blank at either end. */
  ghost predicate Trimmed(s: string, blanks: set<char>) {
    s == [] || (s[0] !in blanks && s[|s| - 1] !in blanks)
  }

  lemma {:induction false} TrimEndKeepsStart(s: string, blanks: set<char>)
    requires s != [] ==> s[0] !in blanks
    ensures Trimmed(TrimEnd(s, blanks), blanks)
  {
    if s != [] && s[|s| - 1] in blanks {
      TrimEndKeepsStart(s[..|s| - 1], blanks);
    }
  }

  lemma {:induction false} TrimStartDropsBlanks(s: string, blanks: set<char>)
    ensures TrimStart(s, blanks) != [] ==> TrimStart(s, blanks)[0] !in blanks
  {
    if s != [] && s[0] in blanks {
      TrimStartDropsBlanks(s[1..], blanks);
    }
  }

  lemma TrimTrims(s: string, blanks: set<char>)
    ensures Trimmed(Trim(s, blanks), blanks)
    ensures Trim(Trim(s, blanks), blanks) == Trim(s, blanks)
  {
    TrimStartDropsBlanks(s, blanks);
    TrimEndKeepsStart(TrimStart(s, blanks), blanks);
  }

  ghost predicate AllIn(s: string, chars: set<char>) {
    forall i | 0 <= i < |s| :: s[i] in chars
  }

  lemma {:induction false} TrimStartPadded(s: string, blanks: set<char>) returns (left: string)
    ensures s == left + TrimStart(s, blanks) && AllIn(left, blanks)
  {
    left := "";
    if s != [] && s[0] in blanks {
      var rest := TrimStartPadded(s[1..], blanks);
      left := [s[0]] + rest;
    }
  }

  lemma {:induction false} TrimEndPadded(s: string, blanks: set<char>) returns (right: string)
    ensures s == TrimEnd(s, blanks) + right && AllIn(right, blanks)
  {
    right := "";
    if s != [] && s[|s| - 1] in blanks {
      var rest := TrimEndPadded(s[..|s| - 1], blanks);
      right := rest + [s[|s| - 1]];
    }
  }

  /** Padding with blanks at the end or the start changes nothing. */
  lemma {:induction false} TrimStartIgnores(left: string, s: string, blanks: set<char>)
    requires AllIn(left, blanks)
    ensures TrimStart(left + s, blanks) == TrimStart(s, blanks)
  {
    if left == [] {
      assert left + s == s;
    } else {
      assert (left + s)[1..] == left[1..] + s && (left + s)[0] == left[0];
      TrimStartIgnores(left[1..], s, blanks);
    }
  }

  lemma {:induction false} TrimEndIgnores(s: string, right: string, blanks: set<char>)
    requires AllIn(right, blanks)
    ensures TrimEnd(s + right, blanks) == TrimEnd(s, blanks)
  {
    if right == [] {
      assert s + right == s;
    } else {
      var n := |right| - 1;
      assert (s + right)[..|s| + n] == s + right[..n] && (s + right)[|s| + n] == right[n];
      TrimEndIgnores(s, right[..n], blanks);
    }
  }

  /** Trimming cuts off blanks at both ends and nothing else. */
  lemma TrimCutsBlanks(s: string, blanks: set<char>)
    ensures exists left, right ::
              s == left + Trim(s, blanks) + right && AllIn(left, blanks) && AllIn(right, blanks)
    ensures Trimmed(Trim(s, blanks), blanks)
  {
    TrimTrims(s, blanks);
    var left := TrimStartPadded(s, blanks);
    var right := TrimEndPadded(TrimStart(s, blanks), blanks);
    assert s == left + Trim(s, blanks) + right;
  }

  /** That determines it: whatever is trimmed itself and becomes the text by adding blanks is what trimming gives. */
  lemma TrimOfPadded(left: string, core: string, right: string, blanks: set<char>)
    requires Trimmed(core, blanks) && AllIn(left, blanks) && AllIn(right, blanks)
    ensures Trim(left + core + right, blanks) == core
  {
    assert left + core + right == left + (core + right);
    TrimStartIgnores(left, core + right, blanks);
    if core == [] {
      assert core + right == right + [];
      TrimStartIgnores(right, [], blanks);
    } else {
      assert (core + right)[0] == core[0];
      TrimEndIgnores(core, right, blanks);
    }
  }

  /** The text is this non-empty one with blanks around it. */
  ghost predicate IsCore(text: string, core: string, blanks: set<char>) {
    && core != "" && Trimmed(core, blanks)
    && exists left, right :: text == left + core + right && AllIn(left, blanks) && AllIn(right, blanks)
  }

  lemma CoreIff(text: string, core: string, blanks: set<char>)
    ensures IsCore(text, core, blanks) <==> core != "" && Trim(text, blanks) == core
  {
    if IsCore(text, core, blanks) {
      var left, right :| text == left + core + right && AllIn(left, blanks) && AllIn(right, blanks);
      TrimOfPadded(left, core, right, blanks);
    } else {
      TrimCutsBlanks(text, blanks);
    }
  }

  /** Nothing remains of a text of blanks, and of no other. */
  lemma BlankIff(s: string, blanks: set<char>)
    ensures Trim(s, blanks) == "" <==> AllIn(s, blanks)
  {
    if AllIn(s, blanks) {
      TrimOfPadded(s, "", "", blanks);
      assert s + "" + "" == s;
    }
    TrimCutsBlanks(s, blanks);
  }

  /** The same letter, upper or lower case, or the same other character. */
  ghost predicate SameLetter(c: char, d: char) {
    || c == d
    || ('A' <= c <= 'Z' && d as int == c as int + 32)
    || ('A' <= d <= 'Z' && c as int == d as int + 32)
  }

  ghost predicate SameLetters(s: string, t: string) {
    |s| == |t| && forall i | 0 <= i < |s| :: SameLetter(s[i], t[i])
  }

  lemma LowerSameIff(s: string, t: string)
    ensures Lower(s) == Lower(t) <==> SameLetters(s, t)
  {
    if Lower(s) == Lower(t) {
      assert |s| == |Lower(s)| == |t|;
      forall i | 0 <= i < |s| ensures SameLetter(s[i], t[i]) {
        assert Lower(s)[i] == LowerChar(s[i]) && Lower(t)[i] == LowerChar(t[i]);
      }
    }
  }

  lemma UpperSameIff(s: string, t: string)
    ensures Upper(s) == Upper(t) <==> SameLetters(s, t)
  {
    if Upper(s) == Upper(t) {
      assert |s| == |Upper(s)| == |t|;
      forall i | 0 <= i < |s| ensures SameLetter(s[i], t[i]) {
        assert Upper(s)[i] == UpperChar(s[i]) && Upper(t)[i] == UpperChar(t[i]);
      }
    }
  }

  /** The text spells this word, in whatever case and with blanks around it. */
  ghost predicate Spells(text: string, word: string, blanks: set<char>) {
    exists core :: IsCore(text, core, blanks) && SameLetters(core, word)
  }

  lemma SpellsIff(text: string, word: string, blanks: set<char>)
    requires word != ""
    ensures Spells(text, word, blanks) <==> Upper(Trim(text, blanks)) == Upper(word)
  {
    var core := Trim(text, blanks);
    UpperSameIff(core, word);
    CoreIff(text, core, blanks);
    assert |Upper(core)| == |core| && |Upper(word)| == |word|;
    forall other | IsCore(text, other, blanks) ensures other == core {
      CoreIff(text, other, blanks);
    }
  }

  /** Upper- and lower-casing keep every letter up to case and leave none of the other case. */
  lemma CasesAre(s: string)
    ensures SameLetters(Upper(s), s) && forall c | c in Upper(s) :: !('a' <= c <= 'z')
    ensures SameLetters(Lower(s), s) && forall c | c in Lower(s) :: !('A' <= c <= 'Z')
  {
  }

  lemma LowerIdempotent(s: string)
    ensures Lower(Lower(s)) == Lower(s)
  {
  }

  /** Upper-casing neither makes nor removes a space, so a trimmed upper-cased text is its own normal form. */
  lemma UpperTrimIdempotent(s: string)
    ensures Upper(Trim(Upper(Trim(s, SQL_BLANKS)), SQL_BLANKS)) == Upper(Trim(s, SQL_BLANKS))
  {
    TrimTrims(s, SQL_BLANKS);
    var u := Upper(Trim(s, SQL_BLANKS));
    assert Trimmed(u, SQL_BLANKS);
    assert Trim(u, SQL_BLANKS) == u;
    assert forall i | 0 <= i < |u| :: u[i] == UpperChar(Trim(s, SQL_BLANKS)[i]);
    assert Upper(u) == u;
  }
}
