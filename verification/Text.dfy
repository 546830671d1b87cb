/**
 Slugs and SQL quoting (internal/controlplane/projects/service.go:38, 357-379;
 internal/controlplane/tenancy/ephemeral.go:277-278).
 */
module Text {
  import opened Wrappers

  // --- Slugs ---------------------------------------------------------------------------

  predicate Alnum(c: char) { 'a' <= c <= 'z' || '0' <= c <= '9' }

  function MapChars(f: char -> char, s: string): string {
    seq(|s|, i requires 0 <= i < |s| => f(s[i]))
  }

  function SkipOthers(s: string): string {
    if s == [] || Alnum(s[0]) then s else SkipOthers(s[1..])
  }

  /** Every maximal run of other characters becomes one underscore. */
  function ReplaceRuns(s: string): string
    decreases |s|
  {
    if s == [] then []
    else if Alnum(s[0]) then [s[0]] + ReplaceRuns(s[1..])
    else SkipShrinks(s[1..]); "_" + ReplaceRuns(SkipOthers(s[1..]))
  }

  lemma SkipShrinks(s: string)
    ensures |SkipOthers(s)| <= |s|
    ensures SkipOthers(s) != [] ==> Alnum(SkipOthers(s)[0])
  {
  }

  function TrimLeft(s: string): string {
    if s != [] && s[0] == '_' then TrimLeft(s[1..]) else s
  }

  function TrimRight(s: string): string {
    if s != [] && s[|s| - 1] == '_' then TrimRight(s[..|s| - 1]) else s
  }

  /** `lower` stands for Unicode lower-casing, of which only the values on [a-z0-9_] matter. */
  function Slugify(lower: char -> char, s: string): string {
    TrimRight(TrimLeft(ReplaceRuns(MapChars(lower, s))))
  }

  predicate FixesSlugChars(lower: char -> char) {
    forall c :: Alnum(c) || c == '_' ==> lower(c) == c
  }

  /** Only [a-z0-9_], with no leading, trailing or doubled underscore. */
  predicate IsSlug(s: string) {
    && (forall i :: 0 <= i < |s| ==> Alnum(s[i]) || s[i] == '_')
    && (s != [] ==> s[0] != '_' && s[|s| - 1] != '_')
    && (forall i :: 0 < i < |s| ==> s[i - 1] != '_' || s[i] != '_')
  }

  /** Lower-case ASCII letters and digits. */
  lemma AlnumIff(c: char)
    ensures Alnum(c) <==> 97 <= c as int <= 122 || 48 <= c as int <= 57
  {
  }

  /** The reference: the maximal runs of [a-z0-9], joined by underscores. */
  function Word(s: string): (w: string)
    ensures |w| <= |s|
  {
    if s == [] || !Alnum(s[0]) then [] else [s[0]] + Word(s[1..])
  }

  lemma WordFits(s: string)
    ensures Word(s) == s[..|Word(s)|]
    ensures |Word(s)| < |s| ==> !Alnum(s[|Word(s)|])
    ensures s != [] && Alnum(s[0]) ==> Word(s) != []
    ensures forall i :: 0 <= i < |Word(s)| ==> Alnum(Word(s)[i])
  {
  }

  function Words(s: string): seq<string>
    decreases |s|
  {
    if s == [] then []
    else if Alnum(s[0]) then WordFits(s); [Word(s)] + Words(s[|Word(s)|..])
    else Words(s[1..])
  }

  function Join(words: seq<string>): string {
    if words == [] then []
    else if |words| == 1 then words[0]
    else words[0] + "_" + Join(words[1..])
  }

  predicate AllWords(words: seq<string>) {
    forall i :: 0 <= i < |words| ==> words[i] != [] && forall j :: 0 <= j < |words[i]| ==> Alnum(words[i][j])
  }

  lemma {:induction false} WordsAreWords(s: string)
    ensures AllWords(Words(s))
    decreases |s|
  {
    if s != [] {
      if Alnum(s[0]) {
        WordFits(s);
        WordsAreWords(s[|Word(s)|..]);
      } else {
        WordsAreWords(s[1..]);
      }
    }
  }

  lemma {:induction false} WordsSkip(s: string)
    ensures Words(SkipOthers(s)) == Words(s)
    decreases |s|
  {
    if s != [] && !Alnum(s[0]) { WordsSkip(s[1..]); }
  }

  lemma {:induction false} RunsAfterWord(s: string)
    ensures ReplaceRuns(s) == Word(s) + ReplaceRuns(s[|Word(s)|..])
    decreases |s|
  {
    if s != [] && Alnum(s[0]) {
      var t := s[1..];
      RunsAfterWord(t);
      assert Word(s) == [s[0]] + Word(t);
      assert t[|Word(t)|..] == s[|Word(s)|..];
    }
  }

  lemma {:induction false} TrimRightKeeps(w: string, rest: string)
    requires w != [] && w[|w| - 1] != '_'
    ensures TrimRight(w + rest) == w + TrimRight(rest)
    decreases |rest|
  {
    if rest == [] {
      assert w + rest == w;
    } else if rest[|rest| - 1] == '_' {
      assert (w + rest)[..|w + rest| - 1] == w + rest[..|rest| - 1];
      TrimRightKeeps(w, rest[..|rest| - 1]);
    }
  }

  lemma RunsAfterGap(s: string)
    requires s != [] && !Alnum(s[0])
    ensures var next := SkipOthers(s[1..]);
            && |next| < |s| && (next != [] ==> Alnum(next[0]))
            && ReplaceRuns(s) == "_" + ReplaceRuns(next) && Words(s) == Words(next)
  {
    SkipShrinks(s[1..]);
    WordsSkip(s[1..]);
  }

  lemma FirstWord(s: string)
    requires s != [] && Alnum(s[0])
    ensures var w := Word(s);
            && 0 < |w| <= |s| && w[|w| - 1] != '_'
            && ReplaceRuns(s) == w + ReplaceRuns(s[|w|..]) && Words(s) == [w] + Words(s[|w|..])
            && ReplaceRuns(s) != [] && ReplaceRuns(s)[0] != '_'
            && (|w| < |s| ==> !Alnum(s[|w|]))
  {
    WordFits(s);
    RunsAfterWord(s);
  }

  lemma Nothing()
    ensures ReplaceRuns("") == "" && Words("") == [] && TrimRight("") == "" && TrimRight("_") == ""
  {
    assert TrimRight("_"[..0]) == "";
  }

  /** A text that starts with a word is its words joined, then perhaps one underscore. */
  lemma {:induction false} RunsAreWordsJoined(s: string)
    requires s != [] && Alnum(s[0])
    ensures TrimRight(ReplaceRuns(s)) == Join(Words(s))
    decreases |s|
  {
    hide ReplaceRuns, Words, Word, TrimRight, SkipOthers;
    Nothing();
    FirstWord(s);
    var w, rest := Word(s), s[|Word(s)|..];
    TrimRightKeeps(w, ReplaceRuns(rest));
    assert w + "" == w && "_" + "" == "_" && [w] + [] == [w];
    if rest != [] {
      RunsAfterGap(rest);
      var next := SkipOthers(rest[1..]);
      if next != [] {
        RunsAreWordsJoined(next);
        FirstWord(next);
        UnderscoreThenWord(ReplaceRuns(next));
        assert w + ("_" + Join(Words(next))) == w + "_" + Join(Words(next));
      }
    }
  }

  lemma {:induction false} UnderscoreThenWord(s: string)
    requires s != [] && s[0] != '_'
    ensures TrimRight("_" + s) == "_" + TrimRight(s)
    decreases |s|
  {
    if s[|s| - 1] == '_' {
      assert ("_" + s)[..|"_" + s| - 1] == "_" + s[..|s| - 1];
      UnderscoreThenWord(s[..|s| - 1]);
    }
  }

  /** Slugify keeps exactly the words of the lower-cased name. */
  lemma SlugIsWordsJoined(lower: char -> char, s: string)
    ensures Slugify(lower, s) == Join(Words(MapChars(lower, s)))
  {
    var t := MapChars(lower, s);
    var u := SkipOthers(t);
    SkipShrinks(t);
    WordsSkip(t);
    assert TrimLeft(ReplaceRuns(t)) == ReplaceRuns(u) by {
      if t != [] {
        SkipShrinks(t[1..]);
        if !Alnum(t[0]) {
          assert ReplaceRuns(t) == "_" + ReplaceRuns(u);
          assert ReplaceRuns(t)[1..] == ReplaceRuns(u);
        }
      }
    }
    if u == [] {
    } else {
      RunsAreWordsJoined(u);
    }
  }

  lemma {:induction false} JoinIsSlug(words: seq<string>)
    requires AllWords(words)
    ensures IsSlug(Join(words)) && (words != [] ==> Join(words) != [])
  {
    if |words| > 1 {
      JoinIsSlug(words[1..]);
    }
  }

  /** Words are recovered from a slug. */
  lemma {:induction false} WordsOfJoin(words: seq<string>)
    requires AllWords(words)
    ensures Words(Join(words)) == words
  {
    if words != [] {
      var w := words[0];
      var tail := if |words| == 1 then "" else "_" + Join(words[1..]);
      assert Join(words) == w + tail;
      WordPrefix(w, tail);
      assert (w + tail)[|w|..] == tail;
      if |words| > 1 {
        WordsOfJoin(words[1..]);
        assert tail[1..] == Join(words[1..]);
      }
    }
  }

  lemma {:induction false} WordPrefix(w: string, tail: string)
    requires forall i :: 0 <= i < |w| ==> Alnum(w[i])
    requires tail != [] ==> !Alnum(tail[0])
    ensures Word(w + tail) == w
  {
    if w == [] {
      assert w + tail == tail;
    } else {
      assert (w + tail)[1..] == w[1..] + tail;
      WordPrefix(w[1..], tail);
    }
  }

  /** After its first word a slug has one underscore and then, again, a slug. */
  lemma SlugTail(s: string, n: nat)
    requires IsSlug(s) && n < |s| && !Alnum(s[n])
    ensures var next := s[n + 1..];
            IsSlug(next) && next != [] && Alnum(next[0]) && s[n..] == "_" + next && SkipOthers(s[n..][1..]) == next
  {
    var next := s[n + 1..];
    assert s[n..][1..] == next;
    assert s[n] == '_' && n + 1 < |s|;
    assert next[0] == s[n + 1] && next[|next| - 1] == s[|s| - 1];
  }

  /** Every slug is the join of its own words. */
  lemma {:induction false} SlugIsItsWords(s: string)
    requires IsSlug(s)
    ensures Join(Words(s)) == s
    decreases |s|
  {
    if s == [] {
      Nothing();
    } else {
      hide Words, Word, ReplaceRuns;
      assert s[0] != '_';
      FirstWord(s);
      var w, rest := Word(s), s[|Word(s)|..];
      WordFits(s);
      assert s == w + rest;
      if rest == [] {
        Nothing();
        assert [w] + [] == [w];
      } else {
        var next := s[|w| + 1..];
        SlugTail(s, |w|);
        RunsAfterGap(rest);
        hide IsSlug, SkipOthers, Alnum;
        SlugIsItsWords(next);
        JoinSplits(w, Words(next));
      }
    }
  }

  lemma JoinSplits(w: string, words: seq<string>)
    requires Join(words) != []
    ensures Join([w] + words) == w + ("_" + Join(words))
  {
    assert ([w] + words)[1..] == words;
    assert w + ("_" + Join(words)) == w + "_" + Join(words);
  }

  /** Output is always a slug, slugs are exactly the fixed points, so slugify is idempotent. */
  lemma SlugifyCanonical(lower: char -> char, s: string)
    requires FixesSlugChars(lower)
    ensures IsSlug(Slugify(lower, s))
    ensures Slugify(lower, s) == s <==> IsSlug(s)
    ensures Slugify(lower, Slugify(lower, s)) == Slugify(lower, s)
  {
    SlugIsWordsJoined(lower, s);
    WordsAreWords(MapChars(lower, s));
    JoinIsSlug(Words(MapChars(lower, s)));
    if IsSlug(s) { SlugIsFixed(lower, s); }
    SlugIsFixed(lower, Slugify(lower, s));
  }

  lemma SlugIsFixed(lower: char -> char, s: string)
    requires FixesSlugChars(lower) && IsSlug(s)
    ensures Slugify(lower, s) == s
  {
    assert MapChars(lower, s) == s;
    SlugIsWordsJoined(lower, s);
    SlugIsItsWords(s);
  }

  /** Two names clash (one slug, one role, one schema) exactly when their words agree. */
  lemma SlugsClashIffWordsAgree(lower: char -> char, s: string, t: string)
    ensures Slugify(lower, s) == Slugify(lower, t) <==> Words(MapChars(lower, s)) == Words(MapChars(lower, t))
  {
    SlugIsWordsJoined(lower, s);
    SlugIsWordsJoined(lower, t);
    WordsAreWords(MapChars(lower, s));
    WordsAreWords(MapChars(lower, t));
    WordsOfJoin(Words(MapChars(lower, s)));
    WordsOfJoin(Words(MapChars(lower, t)));
  }

  // --- Quoting ---------------------------------------------------------------------------

  /** strings.ReplaceAll(s, q, qq) */
  function Doubled(q: char, s: string): string {
    if s == [] then [] else (if s[0] == q then [q, q] else [s[0]]) + Doubled(q, s[1..])
  }

  function Quote(q: char, s: string): string {
    [q] + Doubled(q, s) + [q]
  }

  function QuoteIdent(s: string): string { Quote('"', s) }
  function QuoteLiteral(s: string): string { Quote('\'', s) }

  /** How SQL reads the inside of a quoted token: a doubled quote is one quote, a lone quote
      ends the token.  The result is the value and the text after the token. */
  function ReadInside(q: char, text: string): Option<(string, string)>
    decreases |text|
  {
    if text == [] then None
    else if text[0] != q then
      match ReadInside(q, text[1..])
      case None => None
      case Some((value, rest)) => Some(([text[0]] + value, rest))
    else if |text| > 1 && text[1] == q then
      match ReadInside(q, text[2..])
      case None => None
      case Some((value, rest)) => Some(([q] + value, rest))
    else Some(([], text[1..]))
  }

  function ReadQuoted(q: char, text: string): Option<(string, string)> {
    if text == [] || text[0] != q then None else ReadInside(q, text[1..])
  }

  lemma {:induction false} InsideRoundTrip(q: char, s: string, rest: string)
    requires rest == [] || rest[0] != q
    ensures ReadInside(q, Doubled(q, s) + [q] + rest) == Some((s, rest))
  {
    var text := Doubled(q, s) + [q] + rest;
    if s == [] {
      assert text == [q] + rest;
      assert text[1..] == rest;
    } else {
      InsideRoundTrip(q, s[1..], rest);
      var tail := Doubled(q, s[1..]) + [q] + rest;
      if s[0] == q {
        assert text == [q, q] + tail;
        assert text[2..] == tail;
      } else {
        assert text == [s[0]] + tail;
        assert text[1..] == tail;
      }
      assert [s[0]] + s[1..] == s;
    }
  }

  /** Reading back a quoted text gives the original and stops exactly at its end. */
  lemma QuoteRoundTrip(q: char, s: string, rest: string)
    requires rest == [] || rest[0] != q
    ensures ReadQuoted(q, Quote(q, s) + rest) == Some((s, rest))
  {
    assert (Quote(q, s) + rest)[1..] == Doubled(q, s) + [q] + rest;
    InsideRoundTrip(q, s, rest);
  }

  /** And only quoted text reads as anything: whatever a reader accepts, this writer wrote. */
  lemma {:induction false} ReadIsQuoted(q: char, text: string)
    requires ReadInside(q, text).Some?
    ensures var (value, rest) := ReadInside(q, text).value;
            text == Doubled(q, value) + [q] + rest && (rest == [] || rest[0] != q)
    decreases |text|
  {
    if text[0] != q {
      ReadIsQuoted(q, text[1..]);
      assert text == [text[0]] + text[1..];
    } else if |text| > 1 && text[1] == q {
      ReadIsQuoted(q, text[2..]);
      assert text == [q, q] + text[2..];
    } else {
      assert text == [q] + text[1..];
    }
  }

  /** Quoted pieces laid end to end can be taken apart in only one way. */
  lemma PiecesUnambiguous(q: char, a: string, x: string, b: string, y: string)
    requires (x == [] || x[0] != q) && (y == [] || y[0] != q)
    requires Quote(q, a) + x == Quote(q, b) + y
    ensures a == b && x == y
  {
    QuoteRoundTrip(q, a, x);
    QuoteRoundTrip(q, b, y);
  }

  /** The statement that creates a login role. */
  function CreateRole(role: string, password: string, until: string, tenant: string): string {
    "CREATE ROLE " + (QuoteIdent(role) + (" WITH LOGIN INHERIT PASSWORD " + (QuoteLiteral(password) + (
      " VALID UNTIL " + (QuoteLiteral(until) + (" IN ROLE " + (QuoteIdent(tenant) + "")))))))
  }

  lemma AfterPrefix(prefix: string, x: string, y: string)
    requires prefix + x == prefix + y
    ensures x == y
  {
    assert (prefix + x)[|prefix|..] == x && (prefix + y)[|prefix|..] == y;
  }

  /** A fixed word, a quoted piece and the rest, taken off the front of two equal texts. */
  lemma NextPiece(word: string, q: char, a: string, x: string, b: string, y: string)
    requires (x == [] || x[0] != q) && (y == [] || y[0] != q)
    requires word + (Quote(q, a) + x) == word + (Quote(q, b) + y)
    ensures a == b && x == y
  {
    hide Quote;
    AfterPrefix(word, Quote(q, a) + x, Quote(q, b) + y);
    PiecesUnambiguous(q, a, x, b, y);
  }

  /** Whatever characters names and passwords contain, the text of the statement says exactly
      which role, password, expiry and tenant it is about. */
  lemma CreateRoleUnambiguous(role: string, password: string, until: string, tenant: string,
                              role': string, password': string, until': string, tenant': string)
    requires CreateRole(role, password, until, tenant) == CreateRole(role', password', until', tenant')
    ensures role == role' && password == password' && until == until' && tenant == tenant'
  {
    hide Quote;
    var t4, u4 := Quote('"', tenant) + "", Quote('"', tenant') + "";
    var t3, u3 := Quote('\'', until) + (" IN ROLE " + t4), Quote('\'', until') + (" IN ROLE " + u4);
    var t2, u2 := Quote('\'', password) + (" VALID UNTIL " + t3), Quote('\'', password') + (" VALID UNTIL " + u3);
    NextPiece("CREATE ROLE ", '"', role, " WITH LOGIN INHERIT PASSWORD " + t2,
              role', " WITH LOGIN INHERIT PASSWORD " + u2);
    NextPiece(" WITH LOGIN INHERIT PASSWORD ", '\'', password, " VALID UNTIL " + t3, password', " VALID UNTIL " + u3);
    NextPiece(" VALID UNTIL ", '\'', until, " IN ROLE " + t4, until', " IN ROLE " + u4);
    NextPiece(" IN ROLE ", '"', tenant, "", tenant', "");
  }

  /** Which value stands where, as a reader of SQL finds them. */
  lemma CreateRoleReads(role: string, password: string, until: string, tenant: string)
    ensures exists a, b, c ::
              && CreateRole(role, password, until, tenant) == "CREATE ROLE " + a
              && ReadQuoted('"', a) == Some((role, " WITH LOGIN INHERIT PASSWORD " + b))
              && ReadQuoted('\'', b) == Some((password, " VALID UNTIL " + c))
              && exists d ::
                   ReadQuoted('\'', c) == Some((until, " IN ROLE " + d)) && ReadQuoted('"', d) == Some((tenant, ""))
  {
    hide Quote, ReadQuoted;
    var d := Quote('"', tenant) + "";
    var c := Quote('\'', until) + (" IN ROLE " + d);
    var b := Quote('\'', password) + (" VALID UNTIL " + c);
    var a := Quote('"', role) + (" WITH LOGIN INHERIT PASSWORD " + b);
    QuoteRoundTrip('"', tenant, "");
    QuoteRoundTrip('\'', until, " IN ROLE " + d);
    QuoteRoundTrip('\'', password, " VALID UNTIL " + c);
    QuoteRoundTrip('"', role, " WITH LOGIN INHERIT PASSWORD " + b);
    assert CreateRole(role, password, until, tenant) == "CREATE ROLE " + a;
  }
}
