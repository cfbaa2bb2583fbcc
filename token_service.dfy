/** The `nbToken` service: a tree of token values kept on the root scope,
    read and written by delimited key paths, reset to the configured
    defaults, and used to fill `[path]` placeholders in strings and in
    whole objects. The delimiter, the defaults and the i18n formatting call
    come from the configuration and the `nbI18N` service and are fixed for
    the service's lifetime. */
module NbToken {

  import opened OrderedMap
  import opened JsValue
  import opened TokenFlatten
  import opened Substitution
  import LodashPath
  import opened JsString

  class TokenService {
    /** `$rootScope.tokens`: `undefined` until the first reset. */
    var tokens: Value
    /** Whether `init` has run. */
    var initialized: bool
    /** `nbTokenConfig.delimiter` */
    const delimiter: string
    /** `nbTokenConfig.defaults` */
    const defaults: Value
    /** `nbI18N.t('@value', {'@value': v})` */
    const format: Value -> string

    constructor(delimiter: string, defaults: Value, format: Value -> string)
      ensures this.delimiter == delimiter && this.defaults == defaults && this.format == format
      ensures tokens == Undef && !initialized
    {
      this.delimiter := delimiter;
      this.defaults := defaults;
      this.format := format;
      tokens := Undef;
      initialized := false;
    }

    /** `reset`, also run on every `$stateChangeStart`: the tokens become a
        deep copy of the defaults. */
    method Reset()
      modifies this
      ensures tokens == defaults && initialized == old(initialized)
    {
      tokens := defaults;
    }

    /** `init`: resets the tokens on the first call only; the promise it
        returns always resolves to true. */
    method Init() returns (r: bool)
      modifies this
      ensures r && initialized
      ensures tokens == if old(initialized) then old(tokens) else defaults
    {
      if !initialized {
        initialized := true;
        Reset();
      }
      r := true;
    }

    /** `get(token, defaultValue)` */
    method Get(token: string, default: Value) returns (r: Value)
      ensures r == LodashPath.Get(tokens, token, default, delimiter)
    {
      r := LodashPath.Get(tokens, token, default, delimiter);
    }

    /** `getAll()` */
    method GetAll() returns (r: Value)
      ensures r == tokens
    {
      r := tokens;
    }

    /** `set(token, value)`: writes the value at the delimited path and
        returns the token tree. */
    method Set(token: string, value: Value) returns (r: Value)
      modifies this
      ensures tokens == LodashPath.Set(old(tokens), token, value, delimiter)
      ensures r == tokens && initialized == old(initialized)
    {
      tokens := LodashPath.Set(tokens, token, value, delimiter);
      r := tokens;
    }

    /** `clear(token)`: writes `undefined` at the path, which `_.set` is
        given without the configured delimiter. */
    method Clear(token: string) returns (r: Value)
      modifies this
      ensures tokens == LodashPath.Set(old(tokens), token, Undef, LodashPath.LodashDefaultDelimiter)
      ensures r == tokens && initialized == old(initialized)
    {
      tokens := LodashPath.Set(tokens, token, Undef, LodashPath.LodashDefaultDelimiter);
      r := tokens;
    }

    /** `replace(obj, tokens)`: with no token map given, the placeholders
        come from the flattened token tree. `None` when the call throws. */
    method Replace(obj: Value, given: Option<Entries<string>>) returns (r: Option<Value>)
      ensures r == ReplaceSpec(obj, if given.Some? then given.value else Flatten(tokens, None, delimiter, format))
    {
      if obj == Undef {
        return Some(Undef);
      }
      var placeholders;
      if given.Some? {
        placeholders := given.value;
      } else {
        placeholders := GetReplaceTokens(tokens, None, delimiter, format);
      }
      r := ReplaceValue(obj, placeholders);
    }
  }

  /** A `replace` without a token map reads the live tree: with the tokens
      `{site: {name: 'Acme'}}` and the default `:` delimiter, the
      placeholder `[site:name]` in a string becomes the formatted name. */
  lemma ReplaceFromTokenTree(format: Value -> string)
    requires DollarFree(format(Str("Acme")))
    ensures ReplaceSpec(Str("About " + "[site:name]"), Flatten(SiteTokens(), None, ":", format))
         == Some(Str("About " + format(Str("Acme"))))
  {
    var entry := SiteEntry(format);
    var s := "About " + "[site:name]";
    SubstituteSiteName(entry.1);
    assert ToString(Str(s)) == s;
  }

  lemma SubstituteSiteName(x: string)
    requires DollarFree(x)
    ensures Substitute("About " + "[site:name]", [("[site:name]", x)]) == "About " + x
  {
    var pat := "[site:name]";
    var s := "About " + pat;
    assert Substitute(s, [(pat, x)]) == ReplaceFirst(s, pat, x);
    SiteNameFoundAt();
    ReplaceFirstAt(s, pat, x, 6);
    assert s[..6] == "About " && s[17..] == "";
    assert ReplaceFirst(s, pat, x) == "About " + x + "";
  }

  /** `[site:name]` is first found right after `"About "`. */
  lemma SiteNameFoundAt()
    ensures IndexOf("About " + "[site:name]", "[site:name]") == Some(6)
  {
    var pat := "[site:name]";
    var s := "About " + pat;
    assert s[..6] == "About " && s[6..17] == pat;
    FirstOccurrenceOf(s, pat, 6);
  }

  /** `{site: {name: 'Acme'}}` */
  function SiteTokens(): Value
  {
    Obj(Plain, [("site", Obj(Plain, [("name", Str("Acme"))]))])
  }

  /** The token tree flattens to the one entry `[site:name]`. */
  lemma SiteEntry(format: Value -> string) returns (entry: (string, string))
    ensures entry == ("[site:name]", format(Str("Acme")))
    ensures Flatten(SiteTokens(), None, ":", format) == [entry]
  {
    entry := ("[site:name]", format(Str("Acme")));
    var site := Obj(Plain, [("name", Str("Acme"))]);
    assert ["site", "name"][1..] == ["name"];
    assert Join(["site", "name"], ":") == "site" + ":" + "name";
    assert Placeholder(["site", "name"], ":") == "[site:name]";
    assert Flatten(Str("Acme"), Some(["site", "name"]), ":", format) == [entry];
    assert FlattenMembers(site, ["site"], 1, ":", format) == Merge([], [entry]);
    assert Flatten(site, Some(["site"]), ":", format) == [entry];
    assert FlattenMembers(SiteTokens(), [], 1, ":", format) == Merge([], [entry]);
  }
}
