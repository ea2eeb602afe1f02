/** Custom aliases (app/schemas.py): which texts a request may ask for, and which of them a redirect refuses. */
module Aliases {
  import opened Wrappers
  import opened Api
  import opened Redirect
  import opened Text

  predicate Alnum(c: char) {
    'a' <= c <= 'z' || 'A' <= c <= 'Z' || '0' <= c <= '9'
  }

  predicate AliasChar(c: char) {
    Alnum(c) || c == '-' || c == '_'
  }

  /** `v.replace("-", "").replace("_", "").isalnum()`: nothing but alias characters, and not only dashes. */
  predicate AliasText(s: string) {
    (forall i | 0 <= i < |s| :: AliasChar(s[i])) && (exists i | 0 <= i < |s| :: Alnum(s[i]))
  }

  /** The field's length limits, which apply before stripping, and its validator. */
  function CleanAlias(v: Option<string>): Result<Option<Code>, string> {
    if v.None? then Success(None)
    else if !(4 <= |v.value| <= 16) then Failure("length")
    else if Strip(v.value) == "" then Success(None)
    else if AliasText(Strip(v.value)) then Success(Some(Strip(v.value)))
    else Failure("characters")
  }

  // ---------- the validator's character test ----------

  /** str.replace(c, "") */
  function Without(s: string, c: char): string {
    if s == "" then "" else (if s[0] == c then "" else [s[0]]) + Without(s[1..], c)
  }

  lemma {:induction false} WithoutKeeps(s: string, c: char, x: char)
    ensures x in Without(s, c) <==> x in s && x != c
  {
    if s != "" {
      WithoutKeeps(s[1..], c, x);
      assert x in s <==> x == s[0] || x in s[1..];
    }
  }

  /** str.isalnum() */
  predicate IsAlnum(s: string) {
    s != "" && forall i | 0 <= i < |s| :: Alnum(s[i])
  }

  /** AliasText is what the validator computes. */
  lemma AliasTextIsIsalnum(s: string)
    ensures AliasText(s) <==> IsAlnum(Without(Without(s, '-'), '_'))
  {
    var t := Without(Without(s, '-'), '_');
    forall x: char ensures x in t <==> x in s && x != '-' && x != '_' {
      WithoutKeeps(s, '-', x);
      WithoutKeeps(Without(s, '-'), '_', x);
    }
    if AliasText(s) {
      var i :| 0 <= i < |s| && Alnum(s[i]);
      assert s[i] in t;
      forall k | 0 <= k < |t| ensures Alnum(t[k]) {
        assert t[k] in t;
        var m :| 0 <= m < |s| && s[m] == t[k];
        assert AliasChar(s[m]);
      }
    }
    if IsAlnum(t) {
      assert t[0] in t;
      var i :| 0 <= i < |s| && s[i] == t[0];
      forall k | 0 <= k < |s| ensures AliasChar(s[k]) {
        if s[k] in t {
          var m :| 0 <= m < |t| && t[m] == s[k];
        }
      }
    }
  }

  /** A text of 4 to 16 characters is accepted as `alias` exactly if it is this alias with white space around it, and as no
      alias exactly if it is all white space. */
  lemma AcceptedAliases(text: string, alias: string)
    requires 4 <= |text| <= 16
    ensures CleanAlias(Some(text)) == Success(Some(alias)) <==>
            AliasText(alias) && exists before, after :: Blank(before) && Blank(after) && text == before + alias + after
    ensures CleanAlias(Some(text)) == Success(None) <==> Blank(text)
  {
    var before, after := StripCuts(text);
    if CleanAlias(Some(text)) == Success(Some(alias)) {
      assert text == before + alias + after;
    }
    if AliasText(alias) {
      AliasIsTrimmed(alias);
      forall b, a | Blank(b) && Blank(a) && text == b + alias + a ensures Strip(text) == alias {
        StripPadding(b, alias, a);
      }
    }
    if Blank(text) {
      assert text == text + "" + "";
      StripPadding(text, "", "");
    }
  }

  lemma AliasIsTrimmed(alias: string)
    requires AliasText(alias)
    ensures Trimmed(alias) && alias != ""
  {
    assert AliasChar(alias[0]) && AliasChar(alias[|alias| - 1]);
  }

  lemma NoDot(s: string, name: string, i: nat)
    requires AliasText(s) && i < |name| && name[i] == '.'
    ensures Lower(s) != name
  {
    if i < |s| {
      assert AliasChar(s[i]) && Lower(s)[i] == LowerChar(s[i]);
    }
  }

  /** An accepted alias fits the column of 16 characters and is not empty; the redirect route refuses it exactly when it
      spells one of six names. The other reserved names have a dot, which no alias has. */
  lemma ReservedAliases(v: Option<string>)
    requires CleanAlias(v).Success? && CleanAlias(v).value.Some?
    ensures
      var alias := CleanAlias(v).value.value;
      && 1 <= |alias| <= 16
      && (Reserved(alias) <==> Lower(alias) in {"health", "docs", "redoc", "api", "metrics", "static"})
  {
    var alias := CleanAlias(v).value.value;
    var before, after := StripCuts(v.value);
    NoDot(alias, "openapi.json", 7);
    NoDot(alias, "favicon.ico", 7);
    NoDot(alias, "robots.txt", 6);
  }

  /** The minimum of four characters counts padding: " api" is accepted, as the reserved "api". */
  lemma PaddedAlias()
    ensures CleanAlias(Some(" api")) == Success(Some("api")) && Reserved("api")
  {
    var s := " api";
    assert s[1..] == "api";
    assert StripLeft(s) == "api" && StripRight("api") == "api";
    assert Alnum("api"[0]);
    assert Lower("api") == "api";
  }
}
