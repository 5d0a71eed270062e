/** Resolution of the forge configuration (`findConfig`): locating the raw
    configuration, resolving `fromBuildIdentifier` selectors, overlaying the
    defaults, and the environment-fallback layer that makes every unset
    property readable from an `ELECTRON_FORGE_...` variable. The process
    environment is an explicit `map<string, string>`. The worked examples
    of variable names unfold each literal word in a lemma of its own
    (`WordSecret` … `WordUrl`), which keeps every proof small. */
module ForgeConfig {
  import opened Values

  /* ---------------------------------------------------------------------
     Environment-variable names
     --------------------------------------------------------------------- */

  const EnvPrefix: string := "ELECTRON_FORGE"

  predicate IsLowerAscii(c: char) { 'a' <= c <= 'z' }
  predicate IsUpperAscii(c: char) { 'A' <= c <= 'Z' }
  predicate IsDigit(c: char) { '0' <= c <= '9' }

  /** No lower-case ASCII letter occurs in `s`. */
  predicate NoLowerCase(s: string)
  {
    forall i :: 0 <= i < |s| ==> !IsLowerAscii(s[i])
  }

  /** No upper-case ASCII letter occurs in `s`. */
  predicate NoUpperCase(s: string)
  {
    s == [] || (!IsUpperAscii(s[0]) && NoUpperCase(s[1..]))
  }

  /** `NoUpperCase` checked character by character. */
  lemma {:induction false} NoUpperCaseAt(s: string)
    requires forall i :: 0 <= i < |s| ==> !IsUpperAscii(s[i])
    ensures NoUpperCase(s)
  {
    if s != [] {
      assert forall i :: 0 <= i < |s| - 1 ==> s[1..][i] == s[i + 1];
      NoUpperCaseAt(s[1..]);
    }
  }

  function ToUpperAscii(c: char): (u: char)
    ensures !IsLowerAscii(u)
    ensures !IsLowerAscii(c) ==> u == c
    ensures IsLowerAscii(c) ==> IsUpperAscii(u) && u as int == c as int - 32
  {
    if IsLowerAscii(c) then (c as int - 32) as char else c
  }

  /** `s.toUpperCase()` restricted to ASCII letters. */
  function UpperCase(s: string): string
  {
    if s == [] then [] else [ToUpperAscii(s[0])] + UpperCase(s[1..])
  }

  /** Where camel case starts a new word: a lower-case letter or a digit
      followed by an upper-case letter. */
  predicate WordBoundary(prev: char, c: char)
  {
    (IsLowerAscii(prev) || IsDigit(prev)) && IsUpperAscii(c)
  }

  /** Upper snake case of `s`, given the character `prev` before it. */
  function SnakeAfter(prev: char, s: string): string
    decreases |s|
  {
    if s == [] then []
    else (if WordBoundary(prev, s[0]) then "_" else "") + [ToUpperAscii(s[0])] + SnakeAfter(s[0], s[1..])
  }

  /** One configuration key in upper snake case: an underscore is put at
      every word boundary and every letter is upper-cased
      (`secretAccessKey` becomes `SECRET_ACCESS_KEY`, `s3` becomes `S3`). */
  function UpperSnake(key: string): string
  {
    if key == [] then [] else [ToUpperAscii(key[0])] + SnakeAfter(key[0], key[1..])
  }

  /** The environment variable consulted for the property at `path`: the
      prefix followed by `_` and the upper snake case of each key. */
  function EnvName(path: seq<string>): string
  {
    if path == [] then EnvPrefix
    else EnvName(path[..|path| - 1]) + "_" + UpperSnake(path[|path| - 1])
  }

  /** Upper-casing keeps the length and maps every character. */
  lemma {:induction false} UpperCaseAt(s: string)
    ensures |UpperCase(s)| == |s|
    ensures forall i :: 0 <= i < |s| ==> UpperCase(s)[i] == ToUpperAscii(s[i])
  {
    if s != [] {
      UpperCaseAt(s[1..]);
    }
  }

  /** Snake-casing leaves no lower-case letter and at most doubles the
      length (one underscore per character at most). */
  lemma {:induction false} SnakeAfterShape(prev: char, s: string)
    ensures NoLowerCase(SnakeAfter(prev, s))
    ensures |s| <= |SnakeAfter(prev, s)| <= 2 * |s|
    decreases |s|
  {
    if s != [] {
      SnakeAfterShape(s[0], s[1..]);
    }
  }

  /** Every environment name starts with the prefix, is upper case, and
      extending the path by a key appends `_` and that key in upper snake
      case. */
  lemma {:induction false} EnvNameShape(path: seq<string>)
    ensures |EnvPrefix| <= |EnvName(path)| && EnvName(path)[..|EnvPrefix|] == EnvPrefix
    ensures NoLowerCase(EnvName(path))
    ensures path != [] ==> |EnvName(path)| > |EnvPrefix| && EnvName(path)[|EnvPrefix|] == '_'
  {
    if path != [] {
      var key := path[|path| - 1];
      var outer := EnvName(path[..|path| - 1]);
      var word := UpperSnake(key);
      EnvNameShape(path[..|path| - 1]);
      if key != [] {
        SnakeAfterShape(key[0], key[1..]);
        assert NoLowerCase(word) by {
          assert word == [ToUpperAscii(key[0])] + SnakeAfter(key[0], key[1..]);
        }
      }
      assert EnvName(path) == outer + "_" + word;
      assert EnvName(path)[..|EnvPrefix|] == outer[..|EnvPrefix|];
      forall i | 0 <= i < |EnvName(path)|
        ensures !IsLowerAscii(EnvName(path)[i])
      {
        if i < |outer| {
          assert EnvName(path)[i] == outer[i];
        } else if i > |outer| {
          assert EnvName(path)[i] == word[i - |outer| - 1];
        }
      }
    } else {
      assert NoLowerCase(EnvPrefix);
    }
  }

  /** The name of a two-key path. */
  lemma EnvNameOfTwoKeys(path: seq<string>)
    requires |path| == 2
    ensures EnvName(path) == EnvPrefix + "_" + UpperSnake(path[0]) + "_" + UpperSnake(path[1])
  {
    var first := path[..1];
    assert first[..0] == [] && first[0] == path[0];
    assert EnvName(first) == EnvPrefix + "_" + UpperSnake(path[0]);
  }

  /** A key without capitals gains no underscore: it is only upper-cased. */
  lemma {:induction false} SnakeAfterWithoutCapitals(prev: char, s: string)
    requires NoUpperCase(s)
    ensures SnakeAfter(prev, s) == UpperCase(s)
    decreases |s|
  {
    if s != [] {
      SnakeAfterWithoutCapitals(s[0], s[1..]);
    }
  }

  lemma UpperSnakeWithoutCapitals(key: string)
    requires NoUpperCase(key)
    ensures UpperSnake(key) == UpperCase(key)
  {
    if key != [] {
      SnakeAfterWithoutCapitals(key[0], key[1..]);
    }
  }

  /** Snake-casing is computed word by word. */
  lemma {:induction false} SnakeAfterAppend(prev: char, a: string, b: string)
    requires a != []
    ensures SnakeAfter(prev, a + b) == SnakeAfter(prev, a) + SnakeAfter(a[|a| - 1], b)
    decreases |a|
  {
    assert (a + b)[0] == a[0];
    assert (a + b)[1..] == a[1..] + b;
    if |a| > 1 {
      SnakeAfterAppend(a[0], a[1..], b);
    }
  }

  /** A capitalised word after a lower-case letter or digit becomes `_` and
      the word in capitals. */
  lemma CapitalisedWord(prev: char, w: string)
    requires w != [] && WordBoundary(prev, w[0]) && NoUpperCase(w[1..])
    ensures SnakeAfter(prev, w) == "_" + UpperCase(w)
  {
    var t := [ToUpperAscii(w[0])];
    var a := UpperCase(w[1..]);
    SnakeAfterWithoutCapitals(w[0], w[1..]);
    assert SnakeAfter(prev, w) == ("_" + t) + a;
    assert UpperCase(w) == t + a;
    assert ("_" + t) + a == "_" + (t + a);
  }

  /** Upper-casing a word character by character. */
  lemma UpperCaseMatches(w: string, u: string)
    requires |w| == |u|
    requires forall i :: 0 <= i < |w| ==> ToUpperAscii(w[i]) == u[i]
    ensures UpperCase(w) == u
  {
    UpperCaseAt(w);
  }

  /** A leading word without capitals is only upper-cased. */
  lemma LeadingWord(w0: string, rest: string)
    requires w0 != [] && NoUpperCase(w0)
    ensures UpperSnake(w0 + rest) == UpperCase(w0) + SnakeAfter(w0[|w0| - 1], rest)
  {
    var key := w0 + rest;
    var t := [ToUpperAscii(w0[0])];
    var b := SnakeAfter(w0[|w0| - 1], rest);
    assert key[0] == w0[0];
    assert UpperSnake(key) == t + SnakeAfter(w0[0], key[1..]);
    assert UpperCase(w0) == t + UpperCase(w0[1..]);
    if |w0| == 1 {
      assert key[1..] == rest;
      assert UpperCase(w0[1..]) == [];
      assert t + [] == t;
    } else {
      var a := UpperCase(w0[1..]);
      assert key[1..] == w0[1..] + rest;
      SnakeAfterAppend(w0[0], w0[1..], rest);
      assert w0[1..][|w0[1..]| - 1] == w0[|w0| - 1];
      SnakeAfterWithoutCapitals(w0[0], w0[1..]);
      assert SnakeAfter(w0[0], key[1..]) == a + b;
      assert t + (a + b) == (t + a) + b;
    }
  }

  /** One or two capitalised words after a word boundary each become `_`
      and the word in capitals. */
  lemma CapitalisedWords(prev: char, w1: string, w2: string)
    requires w1 != [] && WordBoundary(prev, w1[0]) && NoUpperCase(w1[1..])
    requires w2 == [] || (WordBoundary(w1[|w1| - 1], w2[0]) && NoUpperCase(w2[1..]))
    ensures SnakeAfter(prev, w1 + w2) == "_" + UpperCase(w1) + (if w2 == [] then "" else "_" + UpperCase(w2))
  {
    CapitalisedWord(prev, w1);
    if w2 == [] {
      assert w1 + w2 == w1;
    } else {
      SnakeAfterAppend(prev, w1, w2);
      CapitalisedWord(w1[|w1| - 1], w2);
    }
  }

  /** A key snake-cased from its words: a first word without capitals
      followed by one or two capitalised words. */
  lemma ThreeWords(w0: string, w1: string, w2: string)
    requires w0 != [] && NoUpperCase(w0)
    requires w1 != [] && WordBoundary(w0[|w0| - 1], w1[0]) && NoUpperCase(w1[1..])
    requires w2 == [] || (WordBoundary(w1[|w1| - 1], w2[0]) && NoUpperCase(w2[1..]))
    ensures UpperSnake(w0 + (w1 + w2)) ==
            UpperCase(w0) + ("_" + UpperCase(w1) + (if w2 == [] then "" else "_" + UpperCase(w2)))
  {
    LeadingWord(w0, w1 + w2);
    CapitalisedWords(w0[|w0| - 1], w1, w2);
  }

  /** The words of a key, run together. */
  function Concat(words: seq<string>): string
  {
    if words == [] then [] else words[0] + Concat(words[1..])
  }

  /** Each word upper-cased and preceded by `_`. */
  function Underscored(words: seq<string>): string
  {
    if words == [] then [] else "_" + UpperCase(words[0]) + Underscored(words[1..])
  }

  /** Every word is capitalised, with no capital after its first letter, and
      starts at a word boundary after the character before it. */
  predicate CapitalisedAfter(prev: char, words: seq<string>)
    decreases |words|
  {
    words == [] ||
    (words[0] != [] && WordBoundary(prev, words[0][0]) && NoUpperCase(words[0][1..]) &&
     CapitalisedAfter(words[0][|words[0]| - 1], words[1..]))
  }

  /** A camel-case key: a first word without capitals followed by
      capitalised words. */
  predicate CamelCaseWords(words: seq<string>)
  {
    |words| >= 1 && words[0] != [] && NoUpperCase(words[0]) &&
    CapitalisedAfter(words[0][|words[0]| - 1], words[1..])
  }

  lemma {:induction false} SnakeCapitalised(prev: char, words: seq<string>)
    requires CapitalisedAfter(prev, words)
    ensures SnakeAfter(prev, Concat(words)) == Underscored(words)
    decreases |words|
  {
    if words != [] {
      var w := words[0];
      var rest := Concat(words[1..]);
      SnakeCapitalised(w[|w| - 1], words[1..]);
      SnakeAfterAppend(prev, w, rest);
      CapitalisedWord(prev, w);
      assert Underscored(words) == "_" + UpperCase(w) + Underscored(words[1..]);
    }
  }

  /** The naming rule for any camel-case key: its words, upper-cased and
      joined by `_`. */
  lemma CamelCaseKey(words: seq<string>)
    requires CamelCaseWords(words)
    ensures UpperSnake(Concat(words)) == UpperCase(words[0]) + Underscored(words[1..])
  {
    assert Concat(words) == words[0] + Concat(words[1..]);
    LeadingWord(words[0], Concat(words[1..]));
    SnakeCapitalised(words[0][|words[0]| - 1], words[1..]);
  }

  /** `_` and the upper snake case of each key, from the first key on. */
  function KeyParts(path: seq<string>): string
  {
    if path == [] then [] else "_" + UpperSnake(path[0]) + KeyParts(path[1..])
  }

  lemma {:induction false} KeyPartsAppend(path: seq<string>, key: string)
    ensures KeyParts(path + [key]) == KeyParts(path) + ("_" + UpperSnake(key))
  {
    var e := "_" + UpperSnake(key);
    if path != [] {
      var h := "_" + UpperSnake(path[0]);
      var t := KeyParts(path[1..]);
      assert (path + [key])[0] == path[0];
      assert (path + [key])[1..] == path[1..] + [key];
      KeyPartsAppend(path[1..], key);
      assert KeyParts(path + [key]) == h + (t + e);
      assert h + (t + e) == (h + t) + e;
    } else {
      assert path + [key] == [key];
      assert KeyParts([key]) == e + KeyParts([]);
    }
  }

  lemma EnvNameAppend(init: seq<string>, key: string)
    ensures EnvName(init + [key]) == EnvName(init) + ("_" + UpperSnake(key))
  {
    var path := init + [key];
    assert path[..|path| - 1] == init && path[|path| - 1] == key;
  }

  lemma {:induction false} EnvNameFromRoot(path: seq<string>)
    ensures EnvName(path) == EnvName([]) + KeyParts(path)
  {
    if path != [] {
      var init := path[..|path| - 1];
      var key := path[|path| - 1];
      assert path == init + [key];
      EnvNameFromRoot(init);
      EnvNameAppend(init, key);
      KeyPartsAppend(init, key);
      var root, parts, e := EnvName([]), KeyParts(init), "_" + UpperSnake(key);
      assert (root + parts) + e == root + (parts + e);
    }
  }

  /** The environment name of a path is the prefix followed, key by key in
      path order, by `_` and the key in upper snake case. */
  lemma EnvNameKeyByKey(path: seq<string>)
    ensures EnvName(path) == EnvPrefix + KeyParts(path)
  {
    EnvNameFromRoot(path);
  }

  /* The worked examples below take their keys as parameters: a literal
     argument would make the verifier unfold the recursive definitions
     eagerly. */

  lemma UpperSnakeS3(key: string)
    requires key == "s3"
    ensures UpperSnake(key) == "S3"
  {
    NoUpperCaseAt(key);
    UpperSnakeWithoutCapitals(key);
    UpperCaseMatches(key, "S3");
  }

  /** Upper-casing a word character by character, and the absence of
      capitals after its first character. */
  lemma WordFacts(w: string, u: string)
    requires w != [] && |w| == |u|
    requires forall i :: 0 <= i < |w| ==> ToUpperAscii(w[i]) == u[i]
    requires forall i :: 1 <= i < |w| ==> !IsUpperAscii(w[i])
    ensures UpperCase(w) == u && NoUpperCase(w[1..])
  {
    UpperCaseMatches(w, u);
    NoUpperCaseAt(w[1..]);
  }

  /* One lemma per word of the example keys, so that each literal is
     unfolded in a proof of its own. */

  lemma WordSecret(w: string)
    requires w == "secret"
    ensures w != [] && UpperCase(w) == "SECRET" && NoUpperCase(w[1..]) && w[0] == 's' && w[|w| - 1] == 't'
  {
    WordFacts(w, "SECRET");
  }

  lemma WordAccess(w: string)
    requires w == "Access"
    ensures w != [] && UpperCase(w) == "ACCESS" && NoUpperCase(w[1..]) && w[0] == 'A' && w[|w| - 1] == 's'
  {
    WordFacts(w, "ACCESS");
  }

  lemma WordKey(w: string)
    requires w == "Key"
    ensures w != [] && UpperCase(w) == "KEY" && NoUpperCase(w[1..]) && w[0] == 'K' && w[|w| - 1] == 'y'
  {
    WordFacts(w, "KEY");
  }

  lemma WordElectron(w: string)
    requires w == "electron"
    ensures w != [] && UpperCase(w) == "ELECTRON" && NoUpperCase(w[1..]) && w[0] == 'e' && w[|w| - 1] == 'n'
  {
    WordFacts(w, "ELECTRON");
  }

  lemma WordRelease(w: string)
    requires w == "Release"
    ensures w != [] && UpperCase(w) == "RELEASE" && NoUpperCase(w[1..]) && w[0] == 'R' && w[|w| - 1] == 'e'
  {
    WordFacts(w, "RELEASE");
  }

  lemma WordServer(w: string)
    requires w == "Server"
    ensures w != [] && UpperCase(w) == "SERVER" && NoUpperCase(w[1..]) && w[0] == 'S' && w[|w| - 1] == 'r'
  {
    WordFacts(w, "SERVER");
  }

  lemma WordBase(w: string)
    requires w == "base"
    ensures w != [] && UpperCase(w) == "BASE" && NoUpperCase(w[1..]) && w[0] == 'b' && w[|w| - 1] == 'e'
  {
    WordFacts(w, "BASE");
  }

  lemma WordUrl(w: string)
    requires w == "Url"
    ensures w != [] && UpperCase(w) == "URL" && NoUpperCase(w[1..]) && w[0] == 'U' && w[|w| - 1] == 'l'
  {
    WordFacts(w, "URL");
  }

  lemma UpperSnakeSecretAccessKey(key: string, w0: string, w1: string, w2: string)
    requires (w0, w1, w2) == ("secret", "Access", "Key") && key == w0 + (w1 + w2)
    ensures UpperSnake(key) == "SECRET_ACCESS_KEY"
  {
    WordSecret(w0);
    WordAccess(w1);
    WordKey(w2);
    ThreeWords(w0, w1, w2);
  }

  lemma UpperSnakeElectronReleaseServer(key: string, w0: string, w1: string, w2: string)
    requires (w0, w1, w2) == ("electron", "Release", "Server") && key == w0 + (w1 + w2)
    ensures UpperSnake(key) == "ELECTRON_RELEASE_SERVER"
  {
    WordElectron(w0);
    WordRelease(w1);
    WordServer(w2);
    ThreeWords(w0, w1, w2);
    SpellSnake(UpperCase(w0), UpperCase(w1), UpperCase(w2), "ELECTRON_RELEASE_SERVER");
  }

  /** The spelled-out snake case of the three-word example. */
  lemma SpellSnake(u0: string, u1: string, u2: string, r: string)
    requires (u0, u1, u2, r) == ("ELECTRON", "RELEASE", "SERVER", "ELECTRON_RELEASE_SERVER")
    ensures u0 + ("_" + u1 + ("_" + u2)) == r
  {
  }

  lemma UpperSnakeBaseUrl(key: string, w0: string, w1: string)
    requires (w0, w1) == ("base", "Url") && key == w0 + (w1 + [])
    ensures UpperSnake(key) == "BASE_URL"
  {
    WordBase(w0);
    WordUrl(w1);
    ThreeWords(w0, w1, []);
  }

  /** The keys of the examples split into their words. */
  lemma SplitKeys(key: string)
    ensures key == "secretAccessKey" ==> key == "secret" + ("Access" + "Key")
    ensures key == "electronReleaseServer" ==> key == "electron" + ("Release" + "Server")
    ensures key == "baseUrl" ==> key == "base" + ("Url" + [])
  {
  }

  /** The two names the configuration tests rely on; `s3` stays `S3`. */
  lemma EnvNameSecretAccessKey(path: seq<string>)
    requires path == ["s3", "secretAccessKey"]
    ensures EnvName(path) == "ELECTRON_FORGE_S3_SECRET_ACCESS_KEY"
  {
    var k0, k1 := path[0], path[1];
    EnvNameOfTwoKeys(path);
    UpperSnakeS3(k0);
    SplitKeys(k1);
    UpperSnakeSecretAccessKey(k1, "secret", "Access", "Key");
    SpellName(UpperSnake(k0), UpperSnake(k1), "ELECTRON_FORGE_S3_SECRET_ACCESS_KEY");
  }

  lemma EnvNameBaseUrl(path: seq<string>)
    requires path == ["electronReleaseServer", "baseUrl"]
    ensures EnvName(path) == "ELECTRON_FORGE_ELECTRON_RELEASE_SERVER_BASE_URL"
  {
    var k0, k1 := path[0], path[1];
    EnvNameOfTwoKeys(path);
    SplitKeys(k0);
    UpperSnakeElectronReleaseServer(k0, "electron", "Release", "Server");
    SplitKeys(k1);
    UpperSnakeBaseUrl(k1, "base", "Url");
    SpellName(UpperSnake(k0), UpperSnake(k1), "ELECTRON_FORGE_ELECTRON_RELEASE_SERVER_BASE_URL");
  }

  /** The spelled-out names of the two examples. */
  lemma SpellName(w0: string, w1: string, name: string)
    requires (w0, w1, name) == ("S3", "SECRET_ACCESS_KEY", "ELECTRON_FORGE_S3_SECRET_ACCESS_KEY") ||
             (w0, w1, name) == ("ELECTRON_RELEASE_SERVER", "BASE_URL", "ELECTRON_FORGE_ELECTRON_RELEASE_SERVER_BASE_URL")
    ensures EnvPrefix + "_" + w0 + "_" + w1 == name
  {
  }

  /* ---------------------------------------------------------------------
     Build-identifier selectors
     --------------------------------------------------------------------- */

  const BuildIdentifierKey: string := "buildIdentifier"

  /** The configuration's own `buildIdentifier` field, when it is a string. */
  function BuildIdentifier(raw: map<string, Value>): (id: Option<string>)
    ensures id.Some? <==> BuildIdentifierKey in raw && raw[BuildIdentifierKey].Str?
    ensures id.Some? ==> id.value == raw[BuildIdentifierKey].s
  {
    if BuildIdentifierKey in raw && raw[BuildIdentifierKey].Str? then Some(raw[BuildIdentifierKey].s)
    else None
  }

  /** No selector occurs in `v` outside sequences, which are opaque. */
  predicate SelectorFree(v: Value)
  {
    match v
    case Selector(_, _) => false
    case Record(f) => forall k :: k in f ==> SelectorFree(f[k])
    case _ => true
  }

  /** The selector has a defined entry for the identifier. */
  predicate HasEntry(id: Option<string>, choices: map<string, Value>)
  {
    id.Some? && id.value in choices && choices[id.value] != Undefined
  }

  /** Replaces every selector reachable through records by its entry for
      `id`, else by its fallback, else by `undefined`; the chosen value is
      resolved in turn. Records are rebuilt field by field; every other
      value is returned as it is. */
  function Resolve(id: Option<string>, v: Value): (r: Value)
    ensures SelectorFree(r)
    ensures v.Record? ==> r.Record?
    ensures v.Record? ==> r.fields.Keys == v.fields.Keys
    ensures !v.Record? && !v.Selector? ==> r == v
  {
    match v
    case Selector(choices, fallback) =>
      if HasEntry(id, choices) then Resolve(id, choices[id.value])
      else if fallback.Some? then Resolve(id, fallback.value)
      else Undefined
    case Record(f) => Record(map k | k in f :: Resolve(id, f[k]))
    case _ => v
  }

  /** Resolution leaves selector-free values untouched, so it is
      idempotent. */
  lemma {:induction false} ResolveSelectorFree(id: Option<string>, v: Value)
    requires SelectorFree(v)
    ensures Resolve(id, v) == v
  {
    if v.Record? {
      forall k | k in v.fields
        ensures Resolve(id, v.fields[k]) == v.fields[k]
      {
        ResolveSelectorFree(id, v.fields[k]);
      }
      assert Resolve(id, v).fields == v.fields;
    }
  }

  lemma ResolveIdempotent(id: Option<string>, v: Value)
    ensures Resolve(id, Resolve(id, v)) == Resolve(id, v)
  {
    ResolveSelectorFree(id, Resolve(id, v));
  }

  /** A selector yields its entry for the identifier; without an entry and
      without a fallback it yields `undefined`. */
  lemma SelectorChoice(id: Option<string>, choices: map<string, Value>, fallback: Option<Value>)
    ensures HasEntry(id, choices) && SelectorFree(choices[id.value]) ==>
      Resolve(id, Selector(choices, fallback)) == choices[id.value]
    ensures !HasEntry(id, choices) && fallback.Some? && SelectorFree(fallback.value) ==>
      Resolve(id, Selector(choices, fallback)) == fallback.value
    ensures !HasEntry(id, choices) && fallback.None? ==>
      Resolve(id, Selector(choices, fallback)) == Undefined
  {
    if HasEntry(id, choices) && SelectorFree(choices[id.value]) {
      ResolveSelectorFree(id, choices[id.value]);
    }
    if !HasEntry(id, choices) && fallback.Some? && SelectorFree(fallback.value) {
      ResolveSelectorFree(id, fallback.value);
    }
  }

  /** A selector nested in records is resolved in place: the field at
      `sub.prop` becomes the selector's entry, and the siblings are kept. */
  lemma NestedSelector(id: Option<string>, sub: map<string, Value>, key: string,
                       choices: map<string, Value>, fallback: Option<Value>)
    requires key in sub && sub[key] == Selector(choices, fallback)
    requires HasEntry(id, choices) && SelectorFree(choices[id.value])
    ensures Resolve(id, Record(sub)).fields[key] == choices[id.value]
    ensures forall k :: k in sub && SelectorFree(sub[k]) ==> Resolve(id, Record(sub)).fields[k] == sub[k]
  {
    SelectorChoice(id, choices, fallback);
    forall k | k in sub && SelectorFree(sub[k])
      ensures Resolve(id, Record(sub)).fields[k] == sub[k]
    {
      ResolveSelectorFree(id, sub[k]);
    }
  }

  /** `findConfig` resolves a top-level selector with the configuration's
      own `buildIdentifier`. */
  lemma FindConfigUsesOwnIdentifier(raw: map<string, Value>, pluginInterface: nat, key: string,
                                    choices: map<string, Value>, fallback: Option<Value>)
    requires key in raw && key != PluginInterfaceKey && raw[key] == Selector(choices, fallback)
    requires HasEntry(BuildIdentifier(raw), choices) && SelectorFree(choices[BuildIdentifier(raw).value])
    ensures key in FindConfig(raw, pluginInterface)
    ensures FindConfig(raw, pluginInterface)[key] == choices[raw[BuildIdentifierKey].s]
  {
    var id := BuildIdentifier(raw);
    SelectorChoice(id, choices, fallback);
    assert Resolve(id, Record(raw)).fields[key] == Resolve(id, raw[key]);
  }

  /** Each top-level field of `findConfig`'s result is the raw field
      resolved with the configuration's own `buildIdentifier`. */
  lemma FindConfigResolvesField(raw: map<string, Value>, pluginInterface: nat, key: string)
    requires key in raw && key != PluginInterfaceKey
    ensures key in FindConfig(raw, pluginInterface)
    ensures FindConfig(raw, pluginInterface)[key] == Resolve(BuildIdentifier(raw), raw[key])
  {
    assert Resolve(BuildIdentifier(raw), Record(raw)).fields[key] == Resolve(BuildIdentifier(raw), raw[key]);
  }

  /** A top-level selector without an entry for the configuration's own
      `buildIdentifier` gives its fallback, or `undefined` when it has none. */
  lemma FindConfigSelectorWithoutEntry(raw: map<string, Value>, pluginInterface: nat, key: string,
                                       choices: map<string, Value>, fallback: Option<Value>)
    requires key in raw && key != PluginInterfaceKey && raw[key] == Selector(choices, fallback)
    requires !HasEntry(BuildIdentifier(raw), choices)
    ensures key in FindConfig(raw, pluginInterface)
    ensures fallback.None? ==> FindConfig(raw, pluginInterface)[key] == Undefined
    ensures fallback.Some? && SelectorFree(fallback.value) ==>
      FindConfig(raw, pluginInterface)[key] == fallback.value
  {
    FindConfigResolvesField(raw, pluginInterface, key);
    SelectorChoice(BuildIdentifier(raw), choices, fallback);
  }

  /** A selector one record down is resolved in place with the
      configuration's own `buildIdentifier`. */
  lemma FindConfigUsesOwnIdentifierNested(raw: map<string, Value>, pluginInterface: nat, key: string,
                                          sub: map<string, Value>, field: string,
                                          choices: map<string, Value>, fallback: Option<Value>)
    requires key in raw && key != PluginInterfaceKey && raw[key] == Record(sub)
    requires field in sub && sub[field] == Selector(choices, fallback)
    requires HasEntry(BuildIdentifier(raw), choices) && SelectorFree(choices[BuildIdentifier(raw).value])
    ensures key in FindConfig(raw, pluginInterface) && FindConfig(raw, pluginInterface)[key].Record?
    ensures field in FindConfig(raw, pluginInterface)[key].fields
    ensures FindConfig(raw, pluginInterface)[key].fields[field] == choices[raw[BuildIdentifierKey].s]
  {
    var id := BuildIdentifier(raw);
    NestedSelector(id, sub, field, choices, fallback);
    assert Resolve(id, Record(raw)).fields[key] == Resolve(id, raw[key]);
  }

  /* ---------------------------------------------------------------------
     Locating the raw configuration and overlaying the defaults
     --------------------------------------------------------------------- */

  const DefaultScript: string := "forge.config.js"
  const PluginInterfaceKey: string := "pluginInterface"

  /** Where the raw configuration comes from: the `config.forge` record of
      `package.json`, a script module, or nowhere. */
  datatype ConfigSource = Inline(fields: map<string, Value>) | Script(path: string) | NoSource

  datatype LoadError = NotAnObject | ScriptFailed(path: string)

  /** `config.forge` of `package.json` is used directly when it is a record
      and names a script when it is a non-empty string; when it is unset,
      `forge.config.js` is used if present. */
  function LocateSource(forgeField: Value, defaultScriptExists: bool): (r: Result<ConfigSource, LoadError>)
    ensures forgeField.Record? ==> r == Ok(Inline(forgeField.fields))
    ensures forgeField.Str? && Truthy(forgeField) ==> r == Ok(Script(forgeField.s))
    ensures !Truthy(forgeField) ==> r == Ok(if defaultScriptExists then Script(DefaultScript) else NoSource)
    ensures r.Err? <==> Truthy(forgeField) && !forgeField.Record? && !forgeField.Str?
  {
    if !Truthy(forgeField) then Ok(if defaultScriptExists then Script(DefaultScript) else NoSource)
    else if forgeField.Record? then Ok(Inline(forgeField.fields))
    else if forgeField.Str? then Ok(Script(forgeField.s))
    else Err(NotAnObject)
  }

  /** The raw configuration. `scripts` is the configuration-source provider:
      the record each loadable script module evaluates to; a script it does
      not hold fails to load and the failure is reported. */
  function LoadRawConfig(forgeField: Value, defaultScriptExists: bool, scripts: map<string, Value>)
    : (r: Result<map<string, Value>, LoadError>)
    ensures forgeField.Record? ==> r == Ok(forgeField.fields)
    ensures !Truthy(forgeField) && !defaultScriptExists ==> r == Ok(map[])
    ensures !Truthy(forgeField) && defaultScriptExists ==>
      r == (if DefaultScript in scripts && scripts[DefaultScript].Record?
            then Ok(scripts[DefaultScript].fields) else Err(ScriptFailed(DefaultScript)))
    ensures forgeField.Str? && Truthy(forgeField) ==>
      r == (if forgeField.s in scripts && scripts[forgeField.s].Record?
            then Ok(scripts[forgeField.s].fields) else Err(ScriptFailed(forgeField.s)))
    ensures Truthy(forgeField) && !forgeField.Record? && !forgeField.Str? ==> r == Err(NotAnObject)
  {
    match LocateSource(forgeField, defaultScriptExists)
    case Err(e) => Err(e)
    case Ok(Inline(fields)) => Ok(fields)
    case Ok(NoSource) => Ok(map[])
    case Ok(Script(path)) =>
      if path in scripts && scripts[path].Record? then Ok(scripts[path].fields)
      else Err(ScriptFailed(path))
  }

  /** The fixed baseline under every configuration. */
  function Defaults(): map<string, Value>
  {
    map["packagerConfig" := Record(map[]), "rebuildConfig" := Record(map[]),
        "makers" := Sequence([]), "publishers" := Sequence([]), "plugins" := Sequence([])]
  }

  /** Shallow overlay of `config` onto the defaults, then the plugin
      interface handle is attached. */
  function Overlay(config: map<string, Value>, pluginInterface: nat): (r: map<string, Value>)
    ensures r.Keys == Defaults().Keys + config.Keys + {PluginInterfaceKey}
    ensures r[PluginInterfaceKey] == Handle(pluginInterface)
    ensures forall k :: k in config && k != PluginInterfaceKey ==> r[k] == config[k]
    ensures forall k :: k in Defaults() && k !in config ==> r[k] == Defaults()[k]
  {
    Assign(Defaults(), config)[PluginInterfaceKey := Handle(pluginInterface)]
  }

  /** `findConfig` on an already loaded raw configuration. */
  function FindConfig(raw: map<string, Value>, pluginInterface: nat): map<string, Value>
  {
    Overlay(Resolve(BuildIdentifier(raw), Record(raw)).fields, pluginInterface)
  }

  /** Every resolved configuration holds the baseline keys and the plugin
      interface, and no selector survives resolution. */
  lemma {:induction false} FindConfigShape(raw: map<string, Value>, pluginInterface: nat)
    ensures Defaults().Keys + {PluginInterfaceKey} <= FindConfig(raw, pluginInterface).Keys
    ensures FindConfig(raw, pluginInterface)[PluginInterfaceKey] == Handle(pluginInterface)
    ensures forall k :: k in FindConfig(raw, pluginInterface) ==> SelectorFree(FindConfig(raw, pluginInterface)[k])
  {
    var resolved := Resolve(BuildIdentifier(raw), Record(raw));
    assert SelectorFree(resolved);
    forall k | k in FindConfig(raw, pluginInterface)
      ensures SelectorFree(FindConfig(raw, pluginInterface)[k])
    {
      if k != PluginInterfaceKey && k !in resolved.fields {
        assert k in Defaults();
      }
    }
  }

  /** For a configuration without selectors the result is the baseline
      overlaid by the raw fields (raw fields win, nested records replace the
      baseline's wholesale) plus the plugin interface. */
  lemma FindConfigOverlay(raw: map<string, Value>, pluginInterface: nat)
    requires SelectorFree(Record(raw))
    ensures FindConfig(raw, pluginInterface) == Assign(Defaults(), raw)[PluginInterfaceKey := Handle(pluginInterface)]
  {
    ResolveSelectorFree(BuildIdentifier(raw), Record(raw));
  }

  /** A selector-free top-level field passes through `findConfig`
      unchanged, whatever selectors its siblings hold. */
  lemma FindConfigPassThrough(raw: map<string, Value>, pluginInterface: nat, key: string)
    requires key in raw && key != PluginInterfaceKey && SelectorFree(raw[key])
    ensures key in FindConfig(raw, pluginInterface)
    ensures FindConfig(raw, pluginInterface)[key] == raw[key]
  {
    var id := BuildIdentifier(raw);
    ResolveSelectorFree(id, raw[key]);
    assert Resolve(id, Record(raw)).fields[key] == Resolve(id, raw[key]);
  }

  /** With no configuration anywhere the result is exactly the baseline and
      the plugin interface. */
  lemma NoConfigGivesDefaults(forgeField: Value, scripts: map<string, Value>, pluginInterface: nat)
    requires !Truthy(forgeField)
    ensures LoadRawConfig(forgeField, false, scripts) == Ok(map[])
    ensures FindConfig(map[], pluginInterface) == Defaults()[PluginInterfaceKey := Handle(pluginInterface)]
  {
    FindConfigOverlay(map[], pluginInterface);
  }

  /* ---------------------------------------------------------------------
     Reads through the environment-fallback layer
     --------------------------------------------------------------------- */

  /** Reading `key` on the node found at `path`: a record's own property
      wins; otherwise the environment variable for `path + [key]`;
      otherwise `undefined`. Values that are not records are not wrapped,
      so reading through them yields `undefined`. */
  function ReadField(env: map<string, string>, path: seq<string>, node: Value, key: string): (r: Value)
    ensures node.Record? && key in node.fields ==> r == node.fields[key]
    ensures node.Record? && key !in node.fields && EnvName(path + [key]) in env ==>
      r == Str(env[EnvName(path + [key])])
    ensures !node.Record? || (key !in node.fields && EnvName(path + [key]) !in env) ==> r == Undefined
  {
    if !node.Record? then Undefined
    else if key in node.fields then node.fields[key]
    else if EnvName(path + [key]) in env then Str(env[EnvName(path + [key])])
    else Undefined
  }

  /** `cfg.k0.k1...kn` on the resolved configuration, each step through
      `ReadField`. */
  function Get(env: map<string, string>, cfg: map<string, Value>, path: seq<string>): Value
  {
    if path == [] then Record(cfg)
    else ReadField(env, path[..|path| - 1], Get(env, cfg, path[..|path| - 1]), path[|path| - 1])
  }

  /** The value stored at `path` below `node`, ignoring the environment. */
  function LookupIn(node: Value, path: seq<string>): Value
  {
    if path == [] then node else Field(LookupIn(node, path[..|path| - 1]), path[|path| - 1])
  }

  function Lookup(cfg: map<string, Value>, path: seq<string>): Value
  {
    LookupIn(Record(cfg), path)
  }

  /** Every key of `path` is an own property of the record above it. */
  predicate Stored(cfg: map<string, Value>, path: seq<string>)
  {
    path == [] ||
    (Stored(cfg, path[..|path| - 1]) &&
     Lookup(cfg, path[..|path| - 1]).Record? &&
     path[|path| - 1] in Lookup(cfg, path[..|path| - 1]).fields)
  }

  /** A stored value is read back as it is, whatever the environment holds;
      in particular arrays, regexps and functions come back unchanged. */
  lemma {:induction false} StoredValueWins(env: map<string, string>, cfg: map<string, Value>, path: seq<string>)
    requires Stored(cfg, path)
    ensures Get(env, cfg, path) == Lookup(cfg, path)
  {
    if path != [] {
      StoredValueWins(env, cfg, path[..|path| - 1]);
    }
  }

  /** A key that is not stored in its (stored) parent record is read from
      its environment variable when that is set, and is `undefined`
      otherwise. */
  lemma EnvironmentFallback(env: map<string, string>, cfg: map<string, Value>, path: seq<string>)
    requires path != [] && Stored(cfg, path[..|path| - 1])
    requires Lookup(cfg, path[..|path| - 1]).Record?
    requires path[|path| - 1] !in Lookup(cfg, path[..|path| - 1]).fields
    ensures EnvName(path) in env ==> Get(env, cfg, path) == Str(env[EnvName(path)])
    ensures EnvName(path) !in env ==> Get(env, cfg, path) == Undefined
  {
    StoredValueWins(env, cfg, path[..|path| - 1]);
    assert path[..|path| - 1] + [path[|path| - 1]] == path;
  }

  /* ---------------------------------------------------------------------
     Property descriptors
     --------------------------------------------------------------------- */

  datatype PropertyDescriptor = PropertyDescriptor(writable: bool, enumerable: bool, configurable: bool, value: Value)

  /** `Object.getOwnPropertyDescriptor` on the record at the parent of
      `path`: an own property of the record, else a synthesised data
      property holding the environment value, else none. */
  function GetOwnPropertyDescriptor(env: map<string, string>, cfg: map<string, Value>, path: seq<string>)
    : (d: Option<PropertyDescriptor>)
    requires path != []
    ensures d.Some? ==> d.value.writable && d.value.enumerable && d.value.configurable
    ensures d.Some? ==> d.value.value == Get(env, cfg, path)
    ensures d.None? ==> Get(env, cfg, path) == Undefined
  {
    var parent := Get(env, cfg, path[..|path| - 1]);
    var key := path[|path| - 1];
    assert path[..|path| - 1] + [key] == path;
    if parent.Record? && key in parent.fields then Some(PropertyDescriptor(true, true, true, parent.fields[key]))
    else if parent.Record? && EnvName(path) in env then Some(PropertyDescriptor(true, true, true, Str(env[EnvName(path)])))
    else None
  }

  /** `hasOwnProperty`, which consults the descriptor. */
  predicate HasOwnProperty(env: map<string, string>, cfg: map<string, Value>, path: seq<string>)
    requires path != []
  {
    GetOwnPropertyDescriptor(env, cfg, path).Some?
  }

  /** On a stored record, `hasOwnProperty(k)` holds exactly when `k` is
      stored or its environment variable is set; a key supplied only by the
      environment has the synthesised writable, enumerable, configurable
      descriptor. */
  lemma HasOwnPropertyExactly(env: map<string, string>, cfg: map<string, Value>, path: seq<string>)
    requires path != [] && Stored(cfg, path[..|path| - 1])
    requires Lookup(cfg, path[..|path| - 1]).Record?
    ensures HasOwnProperty(env, cfg, path) <==>
      path[|path| - 1] in Lookup(cfg, path[..|path| - 1]).fields || EnvName(path) in env
    ensures path[|path| - 1] !in Lookup(cfg, path[..|path| - 1]).fields && EnvName(path) in env ==>
      GetOwnPropertyDescriptor(env, cfg, path) == Some(PropertyDescriptor(true, true, true, Str(env[EnvName(path)])))
  {
    StoredValueWins(env, cfg, path[..|path| - 1]);
  }

  /* ---------------------------------------------------------------------
     Writes
     --------------------------------------------------------------------- */

  /** An assignment to `path` succeeds when its parent is a stored record. */
  predicate CanSet(cfg: map<string, Value>, path: seq<string>)
  {
    path != [] && Stored(cfg, path[..|path| - 1]) && Lookup(cfg, path[..|path| - 1]).Record?
  }

  /** The stored configuration after `cfg.k0...kn = v`. */
  function SetAt(cfg: map<string, Value>, path: seq<string>, v: Value): map<string, Value>
    requires CanSet(cfg, path)
    decreases |path|
  {
    var parent := path[..|path| - 1];
    var key := path[|path| - 1];
    if parent == [] then cfg[key := v]
    else SetAt(cfg, parent, Record(Lookup(cfg, parent).fields[key := v]))
  }

  /** After a write the written value is stored at its path. */
  lemma {:induction false} SetThenLookup(cfg: map<string, Value>, path: seq<string>, v: Value)
    requires CanSet(cfg, path)
    ensures Stored(SetAt(cfg, path, v), path)
    ensures Lookup(SetAt(cfg, path, v), path) == v
    decreases |path|
  {
    var parent := path[..|path| - 1];
    var key := path[|path| - 1];
    if parent != [] {
      var r := Record(Lookup(cfg, parent).fields[key := v]);
      SetThenLookup(cfg, parent, r);
    }
  }

  /** A write wins over the environment: reading the path afterwards gives
      the written value whatever variables are set. */
  lemma WriteWins(env: map<string, string>, cfg: map<string, Value>, path: seq<string>, v: Value)
    requires CanSet(cfg, path)
    ensures Get(env, SetAt(cfg, path, v), path) == v
  {
    SetThenLookup(cfg, path, v);
    StoredValueWins(env, SetAt(cfg, path, v), path);
  }

  /** The prefixes of a stored path are stored. */
  lemma {:induction false} StoredPrefix(cfg: map<string, Value>, path: seq<string>, j: nat)
    requires Stored(cfg, path) && j <= |path|
    ensures Stored(cfg, path[..j])
    decreases |path|
  {
    if j < |path| {
      assert path[..|path| - 1][..j] == path[..j];
      StoredPrefix(cfg, path[..|path| - 1], j);
    } else {
      assert path[..j] == path;
    }
  }

  /** Along the written path every record is the old one with one field
      replaced by the next record down (or by the written value). */
  lemma {:induction false} SetAtAlongPath(cfg: map<string, Value>, path: seq<string>, v: Value, j: nat)
    requires CanSet(cfg, path) && j < |path|
    ensures Stored(SetAt(cfg, path, v), path[..j]) && Stored(cfg, path[..j])
    ensures Lookup(cfg, path[..j]).Record?
    ensures Lookup(SetAt(cfg, path, v), path[..j]) ==
      Record(Lookup(cfg, path[..j]).fields[path[j] := Lookup(SetAt(cfg, path, v), path[..j + 1])])
    decreases |path|
  {
    var parent := path[..|path| - 1];
    var key := path[|path| - 1];
    var cfg' := SetAt(cfg, path, v);
    StoredPrefix(cfg, parent, j);
    assert parent[..j] == path[..j];
    if j == |path| - 1 {
      assert path[..j + 1] == path;
      SetThenLookup(cfg, path, v);
      if parent != [] {
        var r := Record(Lookup(cfg, parent).fields[key := v]);
        SetThenLookup(cfg, parent, r);
      }
    } else {
      var r := Record(Lookup(cfg, parent).fields[key := v]);
      SetAtAlongPath(cfg, parent, r, j);
      assert parent[..j + 1] == path[..j + 1];
    }
  }

  /** `q` leaves `p` at index `i`: they agree before `i` and differ at `i`. */
  predicate DivergesAt(p: seq<string>, q: seq<string>, i: nat)
  {
    i < |p| && i < |q| && p[..i] == q[..i] && p[i] != q[i]
  }

  /** A write changes nothing off its path: every path that leaves the
      written one keeps its stored value and reads as before. */
  lemma {:induction false} SetLeavesOthers(env: map<string, string>, cfg: map<string, Value>, path: seq<string>,
                                           v: Value, q: seq<string>, i: nat)
    requires CanSet(cfg, path) && DivergesAt(path, q, i)
    ensures Lookup(SetAt(cfg, path, v), q) == Lookup(cfg, q)
    ensures Get(env, SetAt(cfg, path, v), q) == Get(env, cfg, q)
    decreases |q|
  {
    var cfg' := SetAt(cfg, path, v);
    if |q| > i + 1 {
      SetLeavesOthers(env, cfg, path, v, q[..|q| - 1], i);
    } else {
      assert q[..i] == path[..i];
      SetAtAlongPath(cfg, path, v, i);
      StoredValueWins(env, cfg, path[..i]);
      StoredValueWins(env, cfg', path[..i]);
    }
  }

  /* ---------------------------------------------------------------------
     The resolved configuration object
     --------------------------------------------------------------------- */

  /** The object `findConfig` returns. Its stored record is shared with the
      makers, publishers and plugins that receive it and is updated in place
      by assignments; reads go through `Get` with the current environment. */
  class ResolvedConfig {
    var fields: map<string, Value>

    constructor (raw: map<string, Value>, pluginInterface: nat)
      ensures fields == FindConfig(raw, pluginInterface)
      ensures PluginInterfaceKey in fields && Defaults().Keys <= fields.Keys
    {
      fields := FindConfig(raw, pluginInterface);
      FindConfigShape(raw, pluginInterface);
    }

    /** `config.k0...kn = v`. Fails, changing nothing, when the parent of
        the path is not a stored record. */
    method Set(path: seq<string>, v: Value) returns (ok: bool)
      modifies this
      ensures ok == CanSet(old(fields), path)
      ensures fields == if ok then SetAt(old(fields), path, v) else old(fields)
      ensures ok ==> forall env: map<string, string> :: Get(env, fields, path) == v
    {
      ok := CanSet(fields, path);
      if ok {
        var before := fields;
        fields := SetAt(fields, path, v);
        forall env: map<string, string> ensures Get(env, fields, path) == v {
          WriteWins(env, before, path, v);
        }
      }
    }
  }

  /** The scenario of the configuration tests (`s3.secretAccessKey`, whose
      variable `EnvNameSecretAccessKey` names), for any key below an empty
      record: the key reads `undefined` until its variable is set, then the
      variable's value, and a later assignment wins over the variable. */
  lemma EmptyRecordScenario(cfg: map<string, Value>, env: map<string, string>, secret: string, value: Value,
                            path: seq<string>)
    requires |path| == 2 && path[0] in cfg && cfg[path[0]] == Record(map[])
    requires EnvName(path) !in env
    ensures Get(env, cfg, path) == Undefined
    ensures Get(env[EnvName(path) := secret], cfg, path) == Str(secret)
    ensures CanSet(cfg, path)
    ensures Get(env[EnvName(path) := secret], SetAt(cfg, path, value), path) == value
  {
    var parent := path[..1];
    assert parent == [path[0]] && parent[..0] == [];
    assert Lookup(cfg, parent[..0]) == Record(cfg);
    assert Stored(cfg, parent);
    EnvironmentFallback(env, cfg, path);
    EnvironmentFallback(env[EnvName(path) := secret], cfg, path);
    WriteWins(env[EnvName(path) := secret], cfg, path, value);
  }
}
