/** Which audit requests are admitted, and as what. */
module Requests {
  import opened Text
  import opened SpecReview
  import opened Audit

  /** Upper-casing on ASCII: the small letters become capitals, the rest stays. */
  lemma AsciiUpper(c: char)
    requires c as int < 0x80
    ensures c in SMALL <==> 'a' <= c <= 'z'
    ensures if c in SMALL then exists i :: 0 <= i < 26 && SMALL[i] == c && CAPITALS[i] == UpperChar(c)
            else UpperChar(c) == c
  {
    AlphabetAt();
    if 'a' <= c <= 'z' {
      var i := c as int - 97;
      assert SMALL[i] == c && CAPITALS[i] == UpperChar(c);
    }
  }

  /** The letter in any case; the long s is upper-cased to S as well. */
  predicate Spells(c: char, letter: char) {
    || c == letter || (letter in CAPITALS && c as int == letter as int + 32)
    || (letter == 'S' && c as int == 0x17F) || (letter == 'I' && c as int == 0x131)
  }

  predicate SpellsWord(s: string, word: string) {
    |s| == |word| && forall i :: 0 <= i < |s| ==> Spells(s[i], word[i])
  }

  lemma SpellingIsUpper(c: char, letter: char)
    requires 'A' <= letter <= 'Z'
    ensures Spells(c, letter) <==> UpperChar(c) == letter
  {
    AlphabetAt();
    assert CAPITALS[letter as int - 65] == letter;
  }

  lemma WordIsUpper(s: string, word: string)
    requires forall i :: 0 <= i < |word| ==> 'A' <= word[i] <= 'Z'
    ensures SpellsWord(s, word) <==> Upper(s) == word
  {
    hide Spells, UpperChar;
    if |s| == |word| {
      forall i | 0 <= i < |s| ensures Spells(s[i], word[i]) <==> Upper(s)[i] == word[i] {
        SpellingIsUpper(s[i], word[i]);
      }
    }
  }

  /** A blank method or GET in any case is GET, POST in any case is POST, white space aside;
      every other method is refused. */
  lemma MethodsAre(verb: string)
    ensures VerbOf(verb) == Some(GET) <==> TrimSpace(verb) == "" || SpellsWord(TrimSpace(verb), "GET")
    ensures VerbOf(verb) == Some(POST) <==> SpellsWord(TrimSpace(verb), "POST")
    ensures VerbOf(verb) == None <==>
            TrimSpace(verb) != "" && !SpellsWord(TrimSpace(verb), "GET") && !SpellsWord(TrimSpace(verb), "POST")
  {
    hide TrimSpace, Upper, SpellsWord;
    WordIsUpper(TrimSpace(verb), "GET");
    WordIsUpper(TrimSpace(verb), "POST");
    assert |Upper(TrimSpace(verb))| == |TrimSpace(verb)|;
  }

  /** What is wrong with a request, one condition for each refusal. */
  predicate Wrong(error: RequestError, request: Request, config: Config, a: Answers) {
    match error
    case BadMethod =>
      TrimSpace(request.verb) != "" && !SpellsWord(TrimSpace(request.verb), "GET")
      && !SpellsWord(TrimSpace(request.verb), "POST")
    case BodyTooLarge => |request.body| > config.maxRequestBodyBytes
    case BodyWithGet => request.body != [] && !SpellsWord(TrimSpace(request.verb), "POST")
    case BadContentType => request.body != [] && request.contentType !in {"", "application/json"}
    case ExpectationTooLong => Utf8Length(request.expectation) > config.maxExpectationBytes
    case BadExpectedStatus => !(0 <= request.expectedStatus <= 599)
    case BodyNotJson => request.body != [] && !a.validJson(request.body)
    case RepairsWithoutReview => request.generateRepairs && !request.specReview
    case BadUrl => a.validateUrl(TrimSpace(request.url)).None?
  }

  /** A request is admitted iff nothing is wrong with it; the refusal names something that
      is; and what is admitted is the validated URL and the method spelled. */
  lemma AdmittedExactly(request: Request, config: Config, a: Answers)
    ensures Validation(request, config, a).Ok? <==> forall error :: !Wrong(error, request, config, a)
    ensures Validation(request, config, a).Err? ==> Wrong(Validation(request, config, a).error, request, config, a)
    ensures Validation(request, config, a).Ok? ==>
              var (target, verb) := Validation(request, config, a).value;
              && a.validateUrl(TrimSpace(request.url)) == Some(target)
              && (verb.POST? <==> SpellsWord(TrimSpace(request.verb), "POST"))
  {
    hide TrimSpace, SpellsWord, VerbOf, Utf8Length;
    MethodsAre(request.verb);
    if Validation(request, config, a).Ok? {
      forall error ensures !Wrong(error, request, config, a) {
      }
    } else {
      assert Wrong(Validation(request, config, a).error, request, config, a);
    }
  }
}
