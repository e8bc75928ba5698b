/** The configuration string of an agent (agent.h:63-72, 80-81, 117-124): whitespace
    separated `key=value` tokens folded into a map, later tokens overwriting earlier
    ones, and the checks the player constructor applies to the name and the role. */
module Config {
  import opened Wrappers
  import opened Pieces

  /** The characters `operator>>` on a stream skips (isspace in the C locale). */
  predicate IsSpace(c: char) {
    c == ' ' || c == '\t' || c == '\n' || c == '\U{000B}' || c == '\U{000C}' || c == '\r'
  }

  /** What `ss >> pair` can produce: a non-empty run of non-space characters. */
  predicate IsWord(w: string) {
    |w| > 0 && forall i :: 0 <= i < |w| ==> !IsSpace(w[i])
  }

  /** Length of the leading run of non-space characters. */
  function WordLength(s: string): (n: nat)
    ensures n <= |s|
    ensures forall i :: 0 <= i < n ==> !IsSpace(s[i])
    ensures n == |s| || IsSpace(s[n])
  {
    if s == [] || IsSpace(s[0]) then 0 else 1 + WordLength(s[1..])
  }

  /** The tokens the loop `for (pair; ss >> pair; )` reads from `s`, in order. */
  function Tokens(s: string): (ts: seq<string>)
    ensures forall i :: 0 <= i < |ts| ==> IsWord(ts[i])
    decreases |s|
  {
    if s == [] then []
    else if IsSpace(s[0]) then Tokens(s[1..])
    else
      var n := WordLength(s);
      [s[..n]] + Tokens(s[n..])
  }

  /** The non-space characters of `s`, in order. */
  function NonSpace(s: string): string {
    if s == [] then [] else (if IsSpace(s[0]) then [] else [s[0]]) + NonSpace(s[1..])
  }

  function Concat(ts: seq<string>): string {
    if ts == [] then [] else ts[0] + Concat(ts[1..])
  }

  lemma {:induction false} NonSpaceAppend(a: string, b: string)
    ensures NonSpace(a + b) == NonSpace(a) + NonSpace(b)
  {
    if a != [] {
      assert (a + b)[1..] == a[1..] + b;
      NonSpaceAppend(a[1..], b);
    } else {
      assert a + b == b;
    }
  }

  lemma {:induction false} NonSpaceOfRun(s: string)
    requires forall i :: 0 <= i < |s| ==> !IsSpace(s[i])
    ensures NonSpace(s) == s
  {
    if s != [] {
      NonSpaceOfRun(s[1..]);
    }
  }

  /** Tokenising loses exactly the whitespace: the tokens, put back together, are the
      non-space characters of the input. */
  lemma {:induction false} TokensKeepText(s: string)
    ensures Concat(Tokens(s)) == NonSpace(s)
    decreases |s|
  {
    if s == [] {
    } else if IsSpace(s[0]) {
      TokensKeepText(s[1..]);
    } else {
      var n := WordLength(s);
      assert s == s[..n] + s[n..];
      NonSpaceAppend(s[..n], s[n..]);
      NonSpaceOfRun(s[..n]);
      TokensKeepText(s[n..]);
      assert Tokens(s)[1..] == Tokens(s[n..]);
    }
  }

  lemma {:induction false} WordLengthOfWord(w: string, rest: string)
    requires IsWord(w)
    requires rest == [] || IsSpace(rest[0])
    ensures WordLength(w + rest) == |w|
    decreases |w|
  {
    assert (w + rest)[1..] == w[1..] + rest;
    if |w| > 1 {
      WordLengthOfWord(w[1..], rest);
    } else {
      assert w[1..] + rest == rest;
    }
  }

  /** A word followed by whitespace or the end is read as one token. */
  lemma TokensOfWord(w: string, rest: string)
    requires IsWord(w)
    requires rest == [] || IsSpace(rest[0])
    ensures Tokens(w + rest) == [w] + Tokens(rest)
  {
    WordLengthOfWord(w, rest);
    assert (w + rest)[..|w|] == w;
    assert (w + rest)[|w|..] == rest;
  }

  /** std::string::find('='): the first position of '=' in `t`, None for npos. */
  function FindEq(t: string): (r: Option<nat>)
    ensures r.Some? ==> r.value < |t| && t[r.value] == '=' && forall i :: 0 <= i < r.value ==> t[i] != '='
    ensures r.None? ==> forall i :: 0 <= i < |t| ==> t[i] != '='
  {
    if t == [] then None
    else if t[0] == '=' then Some(0)
    else match FindEq(t[1..])
      case None => None
      case Some(k) => Some(k + 1)
  }

  /** `pair.substr(0, pair.find('='))`: the whole token when there is no '='. */
  function KeyOf(t: string): (r: string)
    ensures r <= t && '=' !in r
    ensures '=' in t ==> |r| < |t| && t[|r|] == '='
    ensures '=' !in t ==> r == t
  {
    match FindEq(t)
    case None => t
    case Some(k) => t[..k]
  }

  /** `pair.substr(pair.find('=') + 1)`: npos + 1 wraps to 0, so a token without '='
      is its own value. */
  function ValueOf(t: string): (r: string)
  {
    match FindEq(t)
    case None => t
    case Some(k) => t[k + 1..]
  }

  /** The split is at the first '=' and loses nothing. */
  lemma SplitRoundTrip(t: string)
    ensures '=' in t ==> KeyOf(t) + "=" + ValueOf(t) == t && '=' !in KeyOf(t)
    ensures '=' !in t ==> KeyOf(t) == t && ValueOf(t) == t
  {
    match FindEq(t)
    case None =>
    case Some(k) =>
      assert t == t[..k] + [t[k]] + t[k + 1..];
  }

  /** The map `meta` after inserting every token in order (`meta[key] = { value }`). */
  function MetaOf(ts: seq<string>): map<string, string>
  {
    if ts == [] then map[]
    else MetaOf(ts[..|ts| - 1])[KeyOf(ts[|ts| - 1]) := ValueOf(ts[|ts| - 1])]
  }

  /** A key is present exactly when some token carries it. */
  lemma {:induction false} MetaKeys(ts: seq<string>, k: string)
    ensures k in MetaOf(ts) <==> exists i :: 0 <= i < |ts| && KeyOf(ts[i]) == k
  {
    if ts != [] {
      var init := ts[..|ts| - 1];
      MetaKeys(init, k);
      assert forall i :: 0 <= i < |init| ==> init[i] == ts[i];
      if k in MetaOf(init) {
        var i :| 0 <= i < |init| && KeyOf(init[i]) == k;
        assert KeyOf(ts[i]) == k;
      }
    }
  }

  /** Last one wins: a key's value comes from the last token carrying it. */
  lemma {:induction false} MetaLastWins(ts: seq<string>, i: nat)
    requires i < |ts|
    requires forall j :: i < j < |ts| ==> KeyOf(ts[j]) != KeyOf(ts[i])
    ensures KeyOf(ts[i]) in MetaOf(ts) && MetaOf(ts)[KeyOf(ts[i])] == ValueOf(ts[i])
  {
    if i < |ts| - 1 {
      var init := ts[..|ts| - 1];
      assert init[i] == ts[i];
      MetaLastWins(init, i);
    }
  }

  /** Tokens read later override the map built from earlier ones. */
  lemma {:induction false} MetaAppend(a: seq<string>, b: seq<string>)
    ensures MetaOf(a + b) == MetaOf(a) + MetaOf(b)
    decreases |b|
  {
    if b == [] {
      assert a + b == a;
    } else {
      var last := b[|b| - 1];
      assert (a + b)[..|a + b| - 1] == a + b[..|b| - 1];
      assert (a + b)[|a + b| - 1] == last;
      MetaAppend(a, b[..|b| - 1]);
      UpdateOverride(MetaOf(a), MetaOf(b[..|b| - 1]), KeyOf(last), ValueOf(last));
    }
  }

  lemma UpdateOverride(m: map<string, string>, n: map<string, string>, k: string, v: string)
    ensures (m + n)[k := v] == m + n[k := v]
  {
  }

  /** A word, a blank and the rest: the word is the first token. */
  lemma WordThenBlank(w: string, rest: string)
    requires IsWord(w)
    ensures Tokens(w + " " + rest) == [w] + Tokens(rest)
  {
    assert w + " " + rest == w + (" " + rest);
    TokensOfWord(w, " " + rest);
    assert (" " + rest)[1..] == rest;
  }

  lemma {:induction false} FindEqAfterKey(k: string, v: string)
    requires '=' !in k
    ensures FindEq(k + "=" + v) == Some(|k|)
  {
    if k != [] {
      assert (k + "=" + v)[1..] == k[1..] + "=" + v;
      FindEqAfterKey(k[1..], v);
    }
  }

  /** Splitting `k=v` with no '=' in k gives back k and v. */
  lemma KeyValueOf(k: string, v: string)
    requires '=' !in k
    ensures KeyOf(k + "=" + v) == k && ValueOf(k + "=" + v) == v
  {
    FindEqAfterKey(k, v);
    assert (k + "=" + v)[..|k|] == k;
    assert (k + "=" + v)[|k| + 1..] == v;
  }

  lemma MetaSnoc(ts: seq<string>, t: string)
    ensures MetaOf(ts + [t]) == MetaOf(ts)[KeyOf(t) := ValueOf(t)]
  {
    assert (ts + [t])[..|ts|] == ts;
  }

  datatype ConfigError = MissingKey(key: string) | InvalidName(name: string) | InvalidRole(role: string)

  /** agent::property: `meta.at(key)`, which throws std::out_of_range for an absent key. */
  function Property(meta: map<string, string>, key: string): (r: Result<string, ConfigError>)
    ensures r.Ok? <==> key in meta
    ensures r.Ok? ==> r.value == meta[key]
    ensures r.Err? ==> r.error == MissingKey(key)
  {
    if key in meta then Ok(meta[key]) else Err(MissingKey(key))
  }

  /** agent::notify: the whole message is split at its first '=' and overwrites one entry. */
  function Notify(meta: map<string, string>, msg: string): (m: map<string, string>)
    ensures m.Keys == meta.Keys + {KeyOf(msg)}
    ensures m[KeyOf(msg)] == ValueOf(msg)
    ensures forall k :: k in meta && k != KeyOf(msg) ==> m[k] == meta[k]
  {
    meta[KeyOf(msg) := ValueOf(msg)]
  }

  /** Building the map the way the constructor loop does, one token at a time. */
  method ParseMeta(args: string) returns (meta: map<string, string>)
    ensures meta == MetaOf(Tokens(args))
  {
    var ts := Tokens(args);
    meta := map[];
    var i := 0;
    while i < |ts|
      invariant 0 <= i <= |ts|
      invariant meta == MetaOf(ts[..i])
    {
      assert ts[..i + 1][..i] == ts[..i];
      meta := meta[KeyOf(ts[i]) := ValueOf(ts[i])];
      i := i + 1;
    }
    assert ts[..i] == ts;
  }

  /** One `key=value` argument, as the only token. */
  lemma SingleSetting(k: string, v: string)
    requires '=' !in k && IsWord(k + "=" + v)
    ensures MetaOf(Tokens(k + "=" + v)) == map[k := v]
  {
    TokensOfWord(k + "=" + v, "");
    assert k + "=" + v + "" == k + "=" + v;
    KeyValueOf(k, v);
    MetaSnoc([], k + "=" + v);
    assert [] + [k + "=" + v] == [k + "=" + v];
  }

  /** Two `key=value` arguments separated by a blank. */
  lemma TwoSettings(k1: string, v1: string, k2: string, v2: string)
    requires '=' !in k1 && '=' !in k2 && IsWord(k1 + "=" + v1) && IsWord(k2 + "=" + v2)
    ensures MetaOf(Tokens(k1 + "=" + v1 + " " + k2 + "=" + v2)) == map[k1 := v1][k2 := v2]
  {
    assert k1 + "=" + v1 + " " + k2 + "=" + v2 == (k1 + "=" + v1) + " " + (k2 + "=" + v2);
    WordThenBlank(k1 + "=" + v1, k2 + "=" + v2);
    SingleSetting(k2, v2);
    TokensOfWord(k2 + "=" + v2, "");
    assert k2 + "=" + v2 + "" == k2 + "=" + v2;
    KeyValueOf(k1, v1);
    KeyValueOf(k2, v2);
    var a, b := k1 + "=" + v1, k2 + "=" + v2;
    assert [a] + [b] == [a, b];
    assert [a] == [] + [a];
    MetaSnoc([], a);
    MetaSnoc([a], b);
  }
}
