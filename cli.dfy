/**
  The command-line converter for the `--namespace-packages` option: a word is
  read, without regard to case, as True, False or None, or refused.
*/
module Cli {
  import opened Wrappers
  import opened Strings

  /** The Python values the converter compares against: strings and one integer. */
  datatype PyValue = PyStr(s: string) | PyInt(i: int)

  datatype ArgumentTypeError = NotTernary(value: string)

  /** A ternary value: `None` is Python's None, `Some(b)` a boolean. */
  type Ternary = Option<bool>

  const TrueWords: seq<string> := ["true", "yes", "on", "1"]

  /** The tuple tested for False holds the integer `0`, which no string equals. */
  const FalseWords: seq<PyValue> := [PyStr("false"), PyStr("no"), PyStr("off"), PyInt(0)]

  /** `_ternary_type` as written: the None test is `val in ("none")`, a substring test. */
  function TernaryType(value: string): (r: Result<Ternary, ArgumentTypeError>)
    ensures r.Failure? ==> r.error == NotTernary(value)
  {
    var val := Lower(value);
    if val in TrueWords then Success(Some(true))
    else if PyStr(val) in FalseWords then Success(Some(false))
    else if IsSubstring(val, "none") then Success(None)
    else Failure(NotTernary(value))
  }

  lemma {:induction false} PrefixIff(s: string, t: string)
    ensures s <= t <==> |s| <= |t| && s == t[..|s|]
  {
  }

  /** The contiguous slices of "none" are exactly these ten strings. */
  lemma {:induction false} SubstringsOfNone(s: string)
    ensures IsSubstring(s, "none") <==> s in {"", "n", "no", "non", "none", "o", "on", "one", "ne", "e"}
  {
    assert "none"[1..] == "one" && "one"[1..] == "ne" && "ne"[1..] == "e" && "e"[1..] == "";
    assert IsSubstring(s, "none") == (s <= "none" || IsSubstring(s, "one"));
    assert IsSubstring(s, "one") == (s <= "one" || IsSubstring(s, "ne"));
    assert IsSubstring(s, "ne") == (s <= "ne" || IsSubstring(s, "e"));
    assert IsSubstring(s, "e") == (s <= "e" || IsSubstring(s, ""));
    assert IsSubstring(s, "") == (s <= "");
    PrefixIff(s, "none");
    assert "none"[..0] == "" && "none"[..1] == "n" && "none"[..2] == "no" && "none"[..3] == "non" && "none"[..4] == "none";
    PrefixIff(s, "one");
    assert "one"[..0] == "" && "one"[..1] == "o" && "one"[..2] == "on" && "one"[..3] == "one";
    PrefixIff(s, "ne");
    assert "ne"[..0] == "" && "ne"[..1] == "n" && "ne"[..2] == "ne";
    PrefixIff(s, "e");
    assert "e"[..0] == "" && "e"[..1] == "e";
    PrefixIff(s, "");
  }

  /**
    What each word means: the True words, the False words (without "0"), and
    every slice of "none" not already claimed by the earlier tests; anything
    else is refused, naming the original value.
  */
  lemma {:induction false} TernaryTypeOutcomes(value: string)
    ensures var r, val := TernaryType(value), Lower(value);
      && (r == Success(Some(true)) <==> val in {"true", "yes", "on", "1"})
      && (r == Success(Some(false)) <==> val in {"false", "no", "off"})
      && (r == Success(None) <==> val in {"", "n", "o", "e", "ne", "non", "one", "none"})
      && (r.Failure? <==> r == Failure(NotTernary(value)))
  {
    SubstringsOfNone(Lower(value));
  }

  /** Case does not matter: a word and its lower-case form convert alike. */
  lemma {:induction false} TernaryTypeIgnoresCase(value: string)
    ensures TernaryType(Lower(value)).Success? == TernaryType(value).Success?
    ensures TernaryType(value).Success? ==> TernaryType(Lower(value)) == TernaryType(value)
  {
    LowerIdempotent(value);
  }

  lemma TrueExample()
    ensures TernaryType("TRUE") == Success(Some(true))
  {
    assert Lower("TRUE") == "true";
  }

  lemma FalseExample()
    ensures TernaryType("Off") == Success(Some(false))
  {
    assert Lower("Off") == "off";
  }

  lemma NoneExample()
    ensures TernaryType("None") == Success(None)
  {
    assert Lower("None") == "none";
    SubstringsOfNone("none");
  }

  lemma RefusedExample()
    ensures TernaryType("2") == Failure(NotTernary("2"))
  {
    assert Lower("2") == "2";
    SubstringsOfNone("2");
  }

  /** The digit "0", meant as False, is refused: the string never equals the integer `0`. */
  lemma ZeroRejected()
    ensures TernaryType("0") == Failure(NotTernary("0"))
  {
    assert Lower("0") == "0";
    SubstringsOfNone("0");
  }

  /** The empty word and fragments such as "n" or "one" are taken as None. */
  lemma FragmentsAccepted()
    ensures TernaryType("") == Success(None)
    ensures TernaryType("n") == Success(None)
    ensures TernaryType("one") == Success(None)
  {
    assert Lower("n") == "n";
    assert Lower("one") == "one";
    SubstringsOfNone("n");
    SubstringsOfNone("one");
  }

  /** The converter as evidently intended: "0" is False and only "none" is None. */
  function TernaryTypeIntended(value: string): (r: Result<Ternary, ArgumentTypeError>)
    ensures var val := Lower(value);
      && (r == Success(Some(true)) <==> val in {"true", "yes", "on", "1"})
      && (r == Success(Some(false)) <==> val in {"false", "no", "off", "0"})
      && (r == Success(None) <==> val == "none")
      && (r.Failure? <==> r == Failure(NotTernary(value)))
  {
    var val := Lower(value);
    if val in TrueWords then Success(Some(true))
    else if val in ["false", "no", "off", "0"] then Success(Some(false))
    else if val in ["none"] then Success(None)
    else Failure(NotTernary(value))
  }

  /** The two converters differ on exactly the inputs the slips let through or keep out. */
  lemma {:induction false} TernaryTypeDiffers(value: string)
    ensures TernaryType(value) != TernaryTypeIntended(value)
        <==> Lower(value) in {"0", "", "n", "o", "e", "ne", "non", "one"}
  {
    TernaryTypeOutcomes(value);
  }
}
