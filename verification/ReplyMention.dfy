/**
 The composer's own leading mention: the display name is escaped so that it cannot open or close a tag,
 and lower-case group mentions in it are defused.
 */
module ReplyMention {
  import opened Base
  import opened ReplyText

  predicate Exactly(s: string, token: string) {
    |token| <= |s| && s[..|token|] == token
  }

  /** `html.escape(value, quote=False)` */
  function EscapeHtml(s: string): string {
    if s == [] then []
    else (if s[0] == '&' then "&amp;" else if s[0] == '<' then "&lt;" else if s[0] == '>' then "&gt;" else [s[0]]) + EscapeHtml(s[1..])
  }

  /** `str.replace` */
  function Replace(s: string, token: string, with: string): string
    requires token != []
  {
    if s == [] then []
    else if Exactly(s, token) then with + Replace(s[|token|..], token, with)
    else [s[0]] + Replace(s[1..], token, with)
  }

  /** The '@' of a token written as a character reference. */
  function Defused(token: string): string
    requires token != []
  {
    "&#64;" + token[1..]
  }

  /** `_escape_mention_display` */
  function EscapeDisplay(s: string): string {
    Replace(Replace(Replace(EscapeHtml(s), AT_EVERYONE, Defused(AT_EVERYONE)), AT_UNDERSCORE_ALL, Defused(AT_UNDERSCORE_ALL)),
            AT_ALL, Defused(AT_ALL))
  }

  // ---------------------------------------------------------------- what survives the replacements

  /** A token: an at sign, then characters no replacement writes or looks for. */
  predicate IsToken(token: string) {
    token != [] && token[0] == '@' && Plain(token[1..])
  }

  predicate Plain(word: string) {
    forall i :: 0 <= i < |word| ==> word[i] != '@' && word[i] != '&' && word[i] != '<' && word[i] != '>'
  }

  lemma TheTokens()
    ensures IsToken(AT_EVERYONE) && IsToken(AT_UNDERSCORE_ALL) && IsToken(AT_ALL)
  {
  }

  /** The token occurs somewhere, in its own spelling or in another case. */
  predicate Occurs(s: string, token: string, ownSpelling: bool) {
    s != [] && ((StartsWith(s, token) && Exactly(s, token) == ownSpelling) || Occurs(s[1..], token, ownSpelling))
  }

  lemma {:induction false} NoOccurrenceIn(head: string, rest: string, token: string, own: bool)
    requires IsToken(token) && '@' !in head
    ensures Occurs(head + rest, token, own) <==> Occurs(rest, token, own)
  {
    if head == [] {
      assert head + rest == rest;
    } else {
      assert (head + rest)[1..] == head[1..] + rest;
      assert head[0] != '@' && LowerChar((head + rest)[0]) != token[0];
      NoOccurrenceIn(head[1..], rest, token, own);
    }
  }

  /** Two texts agree as far as a plain word can tell. */
  ghost predicate SameWords(s: string, r: string) {
    forall word: string {:trigger StartsWith(r, word)} {:trigger Exactly(r, word)} ::
      Plain(word) ==> (StartsWith(s, word) <==> StartsWith(r, word)) && (Exactly(s, word) <==> Exactly(r, word))
  }

  lemma SameWordsByHead(s: string, r: string)
    requires s != [] && r != []
    requires s[0] == r[0] && SameWords(s[1..], r[1..])
    ensures SameWords(s, r)
  {
    forall word: string | Plain(word)
      ensures (StartsWith(s, word) <==> StartsWith(r, word)) && (Exactly(s, word) <==> Exactly(r, word))
    {
      WordTail(s, word);
      WordTail(r, word);
    }
  }

  lemma WordTail(s: string, word: string)
    requires s != []
    ensures word != [] ==> (StartsWith(s, word) <==> LowerChar(s[0]) == word[0] && StartsWith(s[1..], word[1..]))
    ensures word != [] ==> (Exactly(s, word) <==> s[0] == word[0] && Exactly(s[1..], word[1..]))
    ensures Plain(word) && word != [] ==> Plain(word[1..])
  {
    if word != [] {
      if StartsWith(s[1..], word[1..]) && LowerChar(s[0]) == word[0] {
        forall i | 0 <= i < |word| ensures LowerChar(s[i]) == word[i] {
          assert i > 0 ==> s[1..][i - 1] == s[i] && word[1..][i - 1] == word[i];
        }
      }
      if |word| <= |s| {
        assert s[..|word|][1..] == s[1..][..|word| - 1];
        assert word == [word[0]] + word[1..];
        assert s[..|word|] == [s[0]] + s[1..][..|word| - 1];
      }
    }
  }

  lemma DifferentHeads(s: string, r: string)
    requires s != [] && r != [] && s[0] in "@&<>" && r[0] in "@&<>"
    ensures SameWords(s, r)
  {
    forall word: string | Plain(word)
      ensures (StartsWith(s, word) <==> StartsWith(r, word)) && (Exactly(s, word) <==> Exactly(r, word))
    {
      if word != [] {
        assert word[0] != s[0] && word[0] != r[0];
      }
    }
  }

  lemma {:induction false} ReplaceKeepsWords(s: string, token: string)
    requires IsToken(token)
    ensures SameWords(s, Replace(s, token, Defused(token)))
  {
    if s != [] {
      var r := Replace(s, token, Defused(token));
      if Exactly(s, token) {
        assert s[..|token|][0] == token[0];
        DifferentHeads(s, r);
      } else {
        ReplaceKeepsWords(s[1..], token);
        SameWordsByHead(s, r);
      }
    }
  }

  /** A token other than the replaced spelling is found after the replacement exactly where it was before. */
  lemma TokenAtHead(s: string, r: string, token: string)
    requires s != [] && r != [] && s[0] == r[0] && IsToken(token) && SameWords(s[1..], r[1..])
    ensures StartsWith(s, token) <==> StartsWith(r, token)
    ensures Exactly(s, token) <==> Exactly(r, token)
  {
    WordTail(s, token);
    WordTail(r, token);
  }

  /** Different tokens differ in their second character, so only one can match. */
  predicate Apart(token: string, other: string)
    requires IsToken(token) && IsToken(other)
  {
    token == other || (|token| > 1 && |other| > 1 && LowerChar(token[1]) != LowerChar(other[1]) && LowerChar(token[1]) == token[1])
  }

  lemma OthersDoNotStart(s: string, token: string, other: string)
    requires IsToken(token) && IsToken(other) && Apart(other, token) && Exactly(s, token)
    ensures other != token ==> !StartsWith(s, other)
  {
    if other != token {
      assert s[..|token|][1] == s[1];
    }
  }

  lemma {:induction false} ReplaceKeepsOthers(s: string, token: string, other: string, own: bool)
    requires IsToken(token) && IsToken(other) && Apart(other, token) && !(other == token && own)
    ensures Occurs(Replace(s, token, Defused(token)), other, own) <==> Occurs(s, other, own)
  {
    if s != [] {
      var with := Defused(token);
      var r := Replace(s, token, with);
      if Exactly(s, token) {
        var rest := s[|token|..];
        ReplaceKeepsOthers(rest, token, other, own);
        assert '@' !in "&#64;" && '@' !in token[1..];
        NoOccurrenceIn(with, Replace(rest, token, with), other, own);
        assert s == token + rest && s[1..] == token[1..] + rest;
        NoOccurrenceIn(token[1..], rest, other, own);
        assert s[..|token|] == token;
        OthersDoNotStart(s, token, other);
      } else {
        ReplaceKeepsOthers(s[1..], token, other, own);
        ReplaceKeepsWords(s[1..], token);
        TokenAtHead(s, r, other);
      }
    }
  }

  lemma {:induction false} ReplaceRemoves(s: string, token: string)
    requires IsToken(token)
    ensures !Occurs(Replace(s, token, Defused(token)), token, true)
  {
    if s != [] {
      var with := Defused(token);
      var r := Replace(s, token, with);
      if Exactly(s, token) {
        ReplaceRemoves(s[|token|..], token);
        assert '@' !in "&#64;" && '@' !in token[1..];
        NoOccurrenceIn(with, Replace(s[|token|..], token, with), token, true);
      } else {
        ReplaceRemoves(s[1..], token);
        ReplaceKeepsWords(s[1..], token);
        TokenAtHead(s, r, token);
      }
    }
  }

  // ---------------------------------------------------------------- HTML escaping

  lemma {:induction false} HtmlKeepsWords(s: string)
    ensures SameWords(s, EscapeHtml(s))
  {
    if s != [] {
      if s[0] == '&' || s[0] == '<' || s[0] == '>' {
        DifferentHeads(s, EscapeHtml(s));
      } else {
        HtmlKeepsWords(s[1..]);
        assert EscapeHtml(s)[1..] == EscapeHtml(s[1..]);
        SameWordsByHead(s, EscapeHtml(s));
      }
    }
  }

  lemma {:induction false} HtmlKeepsTokens(s: string, token: string, own: bool)
    requires IsToken(token)
    ensures Occurs(EscapeHtml(s), token, own) <==> Occurs(s, token, own)
  {
    if s != [] {
      HtmlKeepsTokens(s[1..], token, own);
      if s[0] == '&' || s[0] == '<' || s[0] == '>' {
        var head := if s[0] == '&' then "&amp;" else if s[0] == '<' then "&lt;" else "&gt;";
        NoOccurrenceIn(head, EscapeHtml(s[1..]), token, own);
        assert LowerChar(s[0]) != token[0];
      } else {
        HtmlKeepsWords(s[1..]);
        assert EscapeHtml(s)[1..] == EscapeHtml(s[1..]);
        TokenAtHead(s, EscapeHtml(s), token);
      }
    }
  }

  /** No angle bracket is left, and the replacements write none. */
  predicate NoBrackets(s: string) {
    '<' !in s && '>' !in s
  }

  lemma {:induction false} HtmlHasNoBrackets(s: string)
    ensures NoBrackets(EscapeHtml(s))
  {
    if s != [] {
      HtmlHasNoBrackets(s[1..]);
    }
  }

  lemma {:induction false} ReplaceAddsNoBrackets(s: string, token: string, with: string)
    requires token != [] && NoBrackets(s) && NoBrackets(with)
    ensures NoBrackets(Replace(s, token, with))
  {
    if s != [] {
      if Exactly(s, token) {
        ReplaceAddsNoBrackets(s[|token|..], token, with);
      } else {
        assert s[0] != '<' && s[0] != '>';
        ReplaceAddsNoBrackets(s[1..], token, with);
      }
    }
  }

  lemma DefusedHasNoBrackets(token: string)
    requires IsToken(token)
    ensures NoBrackets(Defused(token))
  {
    assert NoBrackets("&#64;");
  }

  /** The display name can neither close the mention it stands in nor open a tag of its own. */
  lemma DisplayHasNoBrackets(name: string)
    ensures NoBrackets(EscapeDisplay(name))
  {
    TheTokens();
    HtmlHasNoBrackets(name);
    DefusedHasNoBrackets(AT_EVERYONE);
    DefusedHasNoBrackets(AT_UNDERSCORE_ALL);
    DefusedHasNoBrackets(AT_ALL);
    var html := EscapeHtml(name);
    ReplaceAddsNoBrackets(html, AT_EVERYONE, Defused(AT_EVERYONE));
    var first := Replace(html, AT_EVERYONE, Defused(AT_EVERYONE));
    ReplaceAddsNoBrackets(first, AT_UNDERSCORE_ALL, Defused(AT_UNDERSCORE_ALL));
    ReplaceAddsNoBrackets(Replace(first, AT_UNDERSCORE_ALL, Defused(AT_UNDERSCORE_ALL)), AT_ALL, Defused(AT_ALL));
  }

  // ---------------------------------------------------------------- what the display still mentions

  /** After all replacements a token occurs only in another spelling, and then it occurred so in the name. */
  lemma DisplayTokens(name: string, token: string, own: bool)
    requires token == AT_EVERYONE || token == AT_UNDERSCORE_ALL || token == AT_ALL
    ensures Occurs(EscapeDisplay(name), token, own) <==> !own && Occurs(name, token, own)
  {
    TheTokens();
    var html := EscapeHtml(name);
    var first := Replace(html, AT_EVERYONE, Defused(AT_EVERYONE));
    var second := Replace(first, AT_UNDERSCORE_ALL, Defused(AT_UNDERSCORE_ALL));
    HtmlKeepsTokens(name, token, own);
    StepTokens(html, AT_EVERYONE, token, own);
    StepTokens(first, AT_UNDERSCORE_ALL, token, own);
    StepTokens(second, AT_ALL, token, own);
  }

  lemma StepTokens(s: string, token: string, other: string, own: bool)
    requires token == AT_EVERYONE || token == AT_UNDERSCORE_ALL || token == AT_ALL
    requires other == AT_EVERYONE || other == AT_UNDERSCORE_ALL || other == AT_ALL
    ensures IsToken(token)
    ensures Occurs(Replace(s, token, Defused(token)), other, own) <==> !(other == token && own) && Occurs(s, other, own)
  {
    TheTokens();
    if other == token && own {
      ReplaceRemoves(s, token);
    } else {
      assert Apart(other, token);
      ReplaceKeepsOthers(s, token, other, own);
    }
  }

  predicate OccursInAnyCase(s: string, token: string) {
    Occurs(s, token, true) || Occurs(s, token, false)
  }

  /** Without angle brackets only the three group mentions are left to forbid. */
  lemma {:induction false} ForbiddenWithoutBrackets(c: Chars, s: string)
    requires NoBrackets(s)
    ensures Forbidden(c, s) <==>
              OccursInAnyCase(s, AT_EVERYONE) || OccursInAnyCase(s, AT_UNDERSCORE_ALL) || OccursInAnyCase(s, AT_ALL)
  {
    if s != [] {
      assert s[0] != '<' && NoBrackets(s[1..]);
      assert LowerChar(s[0]) != '<';
      assert !TagHere(c, s) && !StartsWith(s, TAG_CLOSE);
      ForbiddenWithoutBrackets(c, s[1..]);
    }
  }

  lemma {:induction false} EveryoneHasOneSpelling(s: string)
    ensures !Occurs(s, AT_EVERYONE, false)
  {
    if s != [] {
      EveryoneHasOneSpelling(s[1..]);
      if StartsWith(s, AT_EVERYONE) {
        assert s[..|AT_EVERYONE|] == AT_EVERYONE;
      }
    }
  }

  /**
   The escape looks for the lower-case spellings only, while mentions are recognised in any case: the
   display still holds a group mention exactly when the name spells one with a capital letter.
   */
  lemma DisplayMentionsExactly(c: Chars, name: string)
    ensures Forbidden(c, EscapeDisplay(name)) <==> Occurs(name, AT_UNDERSCORE_ALL, false) || Occurs(name, AT_ALL, false)
  {
    var display := EscapeDisplay(name);
    DisplayHasNoBrackets(name);
    ForbiddenWithoutBrackets(c, display);
    DisplayTokens(name, AT_EVERYONE, true);
    DisplayTokens(name, AT_EVERYONE, false);
    DisplayTokens(name, AT_UNDERSCORE_ALL, true);
    DisplayTokens(name, AT_UNDERSCORE_ALL, false);
    DisplayTokens(name, AT_ALL, true);
    DisplayTokens(name, AT_ALL, false);
    EveryoneHasOneSpelling(name);
  }

  // ---------------------------------------------------------------- escaping loses nothing

  /** How a client shows escaped text. */
  function Unescape(s: string): string {
    if s == [] then []
    else if "&amp;" <= s then "&" + Unescape(s[5..])
    else if "&lt;" <= s then "<" + Unescape(s[4..])
    else if "&gt;" <= s then ">" + Unescape(s[4..])
    else [s[0]] + Unescape(s[1..])
  }

  lemma UnescapeFirst(x: char, rest: string)
    ensures Unescape((if x == '&' then "&amp;" else if x == '<' then "&lt;" else if x == '>' then "&gt;" else [x]) + rest)
            == [x] + Unescape(rest)
  {
    var first := if x == '&' then "&amp;" else if x == '<' then "&lt;" else if x == '>' then "&gt;" else [x];
    var s := first + rest;
    assert s[|first|..] == rest && s[..|first|] == first;
    if x == '&' {
      assert "&amp;" <= s;
    } else if x == '<' {
      assert "&lt;" <= s && s[1] == 'l';
    } else if x == '>' {
      assert "&gt;" <= s && s[1] == 'g';
    } else {
      assert s[0] == x;
    }
  }

  /** The escaped name is shown as it was. */
  lemma {:induction false} EscapedIsShown(s: string)
    ensures Unescape(EscapeHtml(s)) == s
  {
    if s != [] {
      EscapedIsShown(s[1..]);
      UnescapeFirst(s[0], EscapeHtml(s[1..]));
    }
  }
}
