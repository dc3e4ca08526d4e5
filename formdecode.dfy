/**
 * The form-body decoder parse_query_params: a body of `key=value` pairs
 * separated by `&`, searched for one key. Values are taken literally: there
 * is no percent-decoding and no `+`-to-space, so this is only part of the
 * application/x-www-form-urlencoded parser of section 5.1 of the WHATWG URL
 * Standard.
 */
module FormDecode {
  import opened Wrappers
  import opened CStrings

  /**
   * The tokens strtok(s, "&") hands out, in order: the maximal non-empty runs
   * of characters other than `&` (empty tokens between two `&` vanish).
   */
  function Tokens(s: string): (ts: seq<string>)
    ensures forall k :: 0 <= k < |ts| ==> ts[k] != [] && '&' !in ts[k]
    decreases |s|
  {
    if s == [] then []
    else if s[0] == '&' then Tokens(s[1..])
    else
      var n := IndexOf(s, '&');
      [s[..n]] + Tokens(s[n..])
  }

  /** The token holds an `=` and the text before the first one is `key`. */
  predicate HasKey(token: string, key: string) {
    var eq := IndexOf(token, '=');
    eq < |token| && token[..eq] == key
  }

  /** The text after the first `=` of a token; it may itself hold `=`. */
  function ValueOf(token: string): string
    requires '=' in token
  {
    token[IndexOf(token, '=') + 1..]
  }

  /** The value of the first token whose key is `key`; tokens without `=` never match. */
  function FirstMatch(ts: seq<string>, key: string): Option<string> {
    if ts == [] then None
    else if HasKey(ts[0], key) then Some(ValueOf(ts[0]))
    else FirstMatch(ts[1..], key)
  }

  /** The value parse_query_params finds for `key` in `query`, before truncation. */
  function Decode(query: string, key: string): Option<string> {
    FirstMatch(Tokens(query), key)
  }

  /**
   * parse_query_params(query, param, value, size): `value` is the C string
   * the output buffer held before the call and `result` the one it holds
   * after. The buffer is written, with at most size - 1 characters, only when
   * a token matches; otherwise it keeps what it held.
   */
  method ParseQueryParams(query: string, param: string, value: string, size: nat) returns (result: string)
    requires size >= 1
    ensures Decode(query, param).Some? ==> result == Truncate(Decode(query, param).value, size - 1)
    ensures Decode(query, param).None? ==> result == value
  {
    result := value;
    var rest := query;
    while rest != []
      invariant result == value
      invariant Decode(query, param) == FirstMatch(Tokens(rest), param)
      decreases |rest|
    {
      if rest[0] == '&' {
        rest := rest[1..];
      } else {
        var n := IndexOf(rest, '&');
        var token := rest[..n];
        TokenStep(rest, param);
        var eq := IndexOf(token, '=');
        if eq < |token| && token[..eq] == param {
          result := Truncate(token[eq + 1..], size - 1);
          return;
        }
        rest := rest[n..];
      }
    }
  }

  /** The first match in a list with a token in front. */
  lemma FirstMatchCons(t: string, ts: seq<string>, key: string)
    ensures FirstMatch([t] + ts, key) == if HasKey(t, key) then Some(ValueOf(t)) else FirstMatch(ts, key)
  {
    assert ([t] + ts)[0] == t && ([t] + ts)[1..] == ts;
  }

  /**
   * One token of the loop: the search either ends at the token that holds
   * the key, or carries on after it.
   */
  lemma TokenStep(rest: string, key: string)
    requires rest != [] && rest[0] != '&'
    ensures var n := IndexOf(rest, '&');
      0 < n &&
      FirstMatch(Tokens(rest), key) ==
        if HasKey(rest[..n], key) then Some(ValueOf(rest[..n])) else FirstMatch(Tokens(rest[n..]), key)
  {
    var n := IndexOf(rest, '&');
    FirstMatchCons(rest[..n], Tokens(rest[n..]), key);
  }

  /** FirstMatch returns `v` exactly when `v` is the value of the first token with that key. */
  lemma {:induction false} FirstMatchSome(ts: seq<string>, key: string, v: string)
    ensures FirstMatch(ts, key) == Some(v) <==>
      exists i :: 0 <= i < |ts| && HasKey(ts[i], key) && ValueOf(ts[i]) == v &&
        forall j :: 0 <= j < i ==> !HasKey(ts[j], key)
  {
    if ts != [] {
      FirstMatchSome(ts[1..], key, v);
      if HasKey(ts[0], key) {
        if ValueOf(ts[0]) != v {
          forall i | 0 < i < |ts| && HasKey(ts[i], key)
            ensures exists j :: 0 <= j < i && HasKey(ts[j], key)
          {
            assert HasKey(ts[0], key);
          }
        }
      } else {
        if FirstMatch(ts, key) == Some(v) {
          var i :| 0 <= i < |ts[1..]| && HasKey(ts[1..][i], key) && ValueOf(ts[1..][i]) == v &&
            forall j :: 0 <= j < i ==> !HasKey(ts[1..][j], key);
          assert HasKey(ts[i + 1], key) && ValueOf(ts[i + 1]) == v;
          forall j | 0 <= j < i + 1 ensures !HasKey(ts[j], key) {
            if j > 0 { assert ts[j] == ts[1..][j - 1]; }
          }
        }
        if exists i :: 0 <= i < |ts| && HasKey(ts[i], key) && ValueOf(ts[i]) == v &&
             forall j :: 0 <= j < i ==> !HasKey(ts[j], key)
        {
          var i :| 0 <= i < |ts| && HasKey(ts[i], key) && ValueOf(ts[i]) == v &&
            forall j :: 0 <= j < i ==> !HasKey(ts[j], key);
          assert i > 0;
          assert ts[1..][i - 1] == ts[i];
          forall j | 0 <= j < i - 1 ensures !HasKey(ts[1..][j], key) {
            assert ts[1..][j] == ts[j + 1];
          }
        }
      }
    }
  }

  /** FirstMatch finds nothing exactly when no token has the key. */
  lemma {:induction false} FirstMatchNone(ts: seq<string>, key: string)
    ensures FirstMatch(ts, key).None? <==> forall i :: 0 <= i < |ts| ==> !HasKey(ts[i], key)
  {
    if ts != [] {
      FirstMatchNone(ts[1..], key);
      if !HasKey(ts[0], key) {
        forall i | 0 < i < |ts| ensures ts[i] == ts[1..][i - 1] { }
      }
    }
  }

  /** Decoding in terms of the body's `&`-tokens: first match, exact key, value after the first `=`. */
  lemma DecodeSpec(query: string, key: string)
    ensures Decode(query, key).None? <==>
      forall i :: 0 <= i < |Tokens(query)| ==> !HasKey(Tokens(query)[i], key)
    ensures forall v :: Decode(query, key) == Some(v) <==>
      exists i :: 0 <= i < |Tokens(query)| && HasKey(Tokens(query)[i], key) &&
        ValueOf(Tokens(query)[i]) == v &&
        forall j :: 0 <= j < i ==> !HasKey(Tokens(query)[j], key)
  {
    FirstMatchNone(Tokens(query), key);
    forall v ensures Decode(query, key) == Some(v) <==>
      exists i :: 0 <= i < |Tokens(query)| && HasKey(Tokens(query)[i], key) &&
        ValueOf(Tokens(query)[i]) == v &&
        forall j :: 0 <= j < i ==> !HasKey(Tokens(query)[j], key)
    {
      FirstMatchSome(Tokens(query), key, v);
      assert Decode(query, key) == FirstMatch(Tokens(query), key);
    }
  }

  /** A character the body lacks is in none of its tokens. */
  lemma {:induction false} TokensAvoid(s: string, ch: char)
    requires ch !in s
    ensures forall k :: 0 <= k < |Tokens(s)| ==> ch !in Tokens(s)[k]
    decreases |s|
  {
    if s != [] {
      if s[0] == '&' {
        TokensAvoid(s[1..], ch);
      } else {
        var n := IndexOf(s, '&');
        assert ch !in s[n..];
        TokensAvoid(s[n..], ch);
        assert Tokens(s)[1..] == Tokens(s[n..]);
      }
    }
  }

  lemma {:induction false} FirstMatchAvoid(ts: seq<string>, key: string, ch: char)
    requires forall k :: 0 <= k < |ts| ==> ch !in ts[k]
    ensures FirstMatch(ts, key).Some? ==> ch !in FirstMatch(ts, key).value
  {
    if ts != [] && !HasKey(ts[0], key) {
      FirstMatchAvoid(ts[1..], key, ch);
    }
  }

  /** A decoded value is a piece of the body: a character the body lacks, it lacks too. */
  lemma DecodeAvoids(query: string, key: string, ch: char)
    requires ch !in query
    ensures Decode(query, key).Some? ==> ch !in Decode(query, key).value
  {
    TokensAvoid(query, ch);
    FirstMatchAvoid(Tokens(query), key, ch);
  }

  /** A body assembled from tokens with `&` between them. */
  function JoinTokens(ts: seq<string>): string {
    if ts == [] then ""
    else if |ts| == 1 then ts[0]
    else ts[0] + "&" + JoinTokens(ts[1..])
  }

  /** strtok splitting recovers the tokens a body was assembled from. */
  lemma {:induction false} TokensJoin(ts: seq<string>)
    requires forall k :: 0 <= k < |ts| ==> ts[k] != [] && '&' !in ts[k]
    ensures Tokens(JoinTokens(ts)) == ts
  {
    if |ts| == 1 {
      IndexOfAppend(ts[0], [], '&');
      assert ts[0] + [] == ts[0];
      assert ts[0][|ts[0]|..] == [];
    } else if |ts| > 1 {
      var rest := JoinTokens(ts[1..]);
      var s := ts[0] + ("&" + rest);
      assert JoinTokens(ts) == s;
      IndexOfAppend(ts[0], "&" + rest, '&');
      assert s[..|ts[0]|] == ts[0];
      assert s[|ts[0]|..] == "&" + rest;
      assert ("&" + rest)[1..] == rest;
      TokensJoin(ts[1..]);
    }
  }

  /** Splitting at an `&`: the tokens of the text before it, then those of the text after it. */
  lemma {:induction false} TokensSplit(a: string, b: string)
    ensures Tokens(a + "&" + b) == Tokens(a) + Tokens(b)
    decreases |a|
  {
    var s := a + "&" + b;
    if a == [] {
      assert s == "&" + b && s[1..] == b;
    } else if a[0] == '&' {
      assert s[1..] == a[1..] + "&" + b;
      TokensSplit(a[1..], b);
    } else {
      var m := IndexOf(a, '&');
      assert s == a + ("&" + b);
      if m < |a| {
        IndexOfPrefix(a, "&" + b, '&');
        assert s[..m] == a[..m];
        assert s[m..] == a[m..] + "&" + b;
        TokensSplit(a[m..], b);
      } else {
        assert a[..|a|] == a && a[|a|..] == [];
        TokensSplitLast(a, b);
      }
    }
  }

  /** A last token followed by `&`. */
  lemma TokensSplitLast(a: string, b: string)
    requires a != [] && '&' !in a
    ensures Tokens(a + "&" + b) == [a] + Tokens(b)
  {
    var s := a + ("&" + b);
    assert s == a + "&" + b;
    IndexOfAppend(a, "&" + b, '&');
    assert ("&" + b)[0] == '&';
    assert s[..|a|] == a && s[|a|..] == "&" + b;
    assert ("&" + b)[1..] == b;
    assert Tokens("&" + b) == Tokens(b);
    assert s[0] == a[0] && s[0] != '&';
    assert IndexOf(s, '&') == |a|;
  }

  /** Empty tokens (a leading, trailing or doubled `&`) change nothing. */
  lemma EmptyTokensCollapse(a: string, b: string)
    ensures Tokens("&" + b) == Tokens(b)
    ensures Tokens(a + "&") == Tokens(a)
    ensures Tokens(a + "&&" + b) == Tokens(a + "&" + b)
  {
    TokensSplit([], b);
    assert [] + "&" + b == "&" + b;
    TokensSplit(a, []);
    assert a + "&" + [] == a + "&";
    TokensSplit(a, "&" + b);
    assert a + "&" + ("&" + b) == a + "&&" + b;
    TokensSplit(a, b);
  }

  // ---- Form bodies assembled from key/value pairs ----

  /** The `key=value` tokens of a list of pairs. */
  function PairTokens(kvs: seq<(string, string)>): (ts: seq<string>)
    ensures |ts| == |kvs|
    ensures forall i :: 0 <= i < |kvs| ==> ts[i] == kvs[i].0 + "=" + kvs[i].1
  {
    if kvs == [] then [] else [kvs[0].0 + "=" + kvs[0].1] + PairTokens(kvs[1..])
  }

  /** The body a form with these fields submits, values taken literally. */
  function EncodeForm(kvs: seq<(string, string)>): string {
    JoinTokens(PairTokens(kvs))
  }

  /** The value of the first pair whose key is `key`. */
  function Lookup(kvs: seq<(string, string)>, key: string): Option<string> {
    if kvs == [] then None
    else if kvs[0].0 == key then Some(kvs[0].1)
    else Lookup(kvs[1..], key)
  }

  /** Pairs that survive encoding: keys without `=` or `&`, values without `&`. */
  predicate Encodable(kvs: seq<(string, string)>) {
    forall i :: 0 <= i < |kvs| ==> '=' !in kvs[i].0 && '&' !in kvs[i].0 && '&' !in kvs[i].1
  }

  lemma PairHasKey(k: string, v: string, key: string)
    requires '=' !in k
    ensures HasKey(k + "=" + v, key) <==> k == key
    ensures ValueOf(k + "=" + v) == v
  {
    IndexOfAppend(k, "=" + v, '=');
    assert k + "=" + v == k + ("=" + v);
    assert (k + "=" + v)[..|k|] == k;
    assert (k + "=" + v)[|k| + 1..] == v;
  }

  lemma {:induction false} FirstMatchPairs(kvs: seq<(string, string)>, key: string)
    requires Encodable(kvs)
    ensures FirstMatch(PairTokens(kvs), key) == Lookup(kvs, key)
  {
    if kvs != [] {
      PairHasKey(kvs[0].0, kvs[0].1, key);
      assert PairTokens(kvs)[1..] == PairTokens(kvs[1..]);
      assert Encodable(kvs[1..]) by {
        forall i | 0 <= i < |kvs[1..]| ensures '=' !in kvs[1..][i].0 && '&' !in kvs[1..][i].0 && '&' !in kvs[1..][i].1 {
          assert kvs[1..][i] == kvs[i + 1];
        }
      }
      FirstMatchPairs(kvs[1..], key);
    }
  }

  /** Decoding an encoded form finds each key's first value. */
  lemma DecodeEncodeForm(kvs: seq<(string, string)>, key: string)
    requires Encodable(kvs)
    ensures Decode(EncodeForm(kvs), key) == Lookup(kvs, key)
  {
    var ts := PairTokens(kvs);
    forall k | 0 <= k < |ts| ensures ts[k] != [] && '&' !in ts[k] {
      assert ts[k] == kvs[k].0 + "=" + kvs[k].1;
      assert ts[k][|kvs[k].0|] == '=';
    }
    TokensJoin(ts);
    FirstMatchPairs(kvs, key);
  }

  lemma SampleTokens()
    ensures PairTokens([("color", "Blue"), ("dhcp", "on")]) == ["color=Blue", "dhcp=on"]
    ensures PairTokens([("color", "Blue")]) == ["color=Blue"]
  {
    assert "color" + "=" + "Blue" == "color=Blue";
    assert "dhcp" + "=" + "on" == "dhcp=on";
  }

  /** Two sample bodies as pairs. */
  lemma SampleBodies()
    ensures EncodeForm([("color", "Blue"), ("dhcp", "on")]) == "color=Blue&dhcp=on"
    ensures Encodable([("color", "Blue"), ("dhcp", "on")])
    ensures EncodeForm([("color", "Blue")]) == "color=Blue"
    ensures Encodable([("color", "Blue")])
  {
    SampleTokens();
    JoinTwo("color=Blue", "dhcp=on");
    assert "color=Blue" + "&" + "dhcp=on" == "color=Blue&dhcp=on";
  }

  /** The decoder on the sample bodies a setup form submits. */
  lemma DecodeExamples()
    ensures Decode("color=Blue&dhcp=on", "color") == Some("Blue")
    ensures Decode("color=Blue", "dhcp") == None
  {
    SampleBodies();
    DecodeEncodeForm([("color", "Blue"), ("dhcp", "on")], "color");
    DecodeEncodeForm([("color", "Blue")], "dhcp");
  }

  /** Two tokens joined. */
  lemma JoinTwo(x: string, y: string)
    ensures JoinTokens([x, y]) == x + "&" + y
  {
    assert [x, y][1..] == [y];
  }

  lemma FieldPortTokens()
    ensures PairTokens([("color", "Field"), ("arenaPort", "9000")]) == ["color=Field", "arenaPort=9000"]
  {
    assert "color" + "=" + "Field" == "color=Field";
    assert "arenaPort" + "=" + "9000" == "arenaPort=9000";
  }

  lemma FieldPortBody()
    ensures EncodeForm([("color", "Field"), ("arenaPort", "9000")]) == "color=Field&arenaPort=9000"
    ensures Encodable([("color", "Field"), ("arenaPort", "9000")])
  {
    FieldPortTokens();
    JoinTwo("color=Field", "arenaPort=9000");
    assert "color=Field" + "&" + "arenaPort=9000" == "color=Field&arenaPort=9000";
  }

  /** `color=Field&arenaPort=9000` holds no `dhcp=`. */
  lemma FieldPortNoDhcp()
    ensures !Contains("color=Field&arenaPort=9000", "dhcp=")
  {
    assert "dhcp="[1] == 'h';
    MissingCharNoMatch("color=Field&arenaPort=9000", "dhcp=", 1);
  }

  /** What the four /setConfig decodes find in `color=Field&arenaPort=9000`. */
  lemma FieldPortDecodes()
    ensures Decode("color=Field&arenaPort=9000", "color") == Some("Field")
    ensures Decode("color=Field&arenaPort=9000", "ip") == None
    ensures Decode("color=Field&arenaPort=9000", "arenaIP") == None
    ensures Decode("color=Field&arenaPort=9000", "arenaPort") == Some("9000")
  {
    var kvs := [("color", "Field"), ("arenaPort", "9000")];
    FieldPortBody();
    DecodeEncodeForm(kvs, "color");
    DecodeEncodeForm(kvs, "ip");
    DecodeEncodeForm(kvs, "arenaIP");
    DecodeEncodeForm(kvs, "arenaPort");
  }

  lemma PurpleDecodes()
    ensures Decode("color=Purple", "color") == Some("Purple")
  {
    assert "color" + "=" + "Purple" == "color=Purple";
    assert PairTokens([("color", "Purple")]) == ["color=Purple"];
    DecodeEncodeForm([("color", "Purple")], "color");
  }
}
