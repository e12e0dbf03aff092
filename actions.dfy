/** The authenticated actions of `HNClient`: each action is a POST of a fixed
    parameter map to a fixed path, with the body built by
    `authenticadedAction(path:parameters:)`. */
module Actions {
  import opened Wrappers
  import opened Json
  import opened Text

  // ----- parameters -----

  /** A parameter value: the maps hold `String`s and `ItemID`s as `Any`. */
  datatype ParamValue = Text(s: string) | Number(n: ItemID)

  type ParameterMap = map<string, ParamValue>

  /** `"\(parameter.value)"`: a string as it is, a number in decimal. */
  function Render(v: ParamValue): string
  {
    match v
    case Text(s) => s
    case Number(n) => DecimalString(n)
  }

  datatype Action =
    | LogIn(username: Username, password: string)
    | Flag(username: Username, password: string, itemID: ItemID)
    | Upvote(username: Username, password: string, itemID: ItemID)
    | Downvote(username: Username, password: string, itemID: ItemID)
    | Fav(username: Username, password: string, itemID: ItemID)
    | Unfav(username: Username, password: string, itemID: ItemID)
    | Reply(username: Username, password: string, parentID: ItemID, text: string)

  /** The path each public action posts to. */
  function Path(a: Action): string
  {
    match a
    case LogIn(_, _) => "/login"
    case Flag(_, _, _) => "/flag"
    case Upvote(_, _, _) => "/vote"
    case Downvote(_, _, _) => "/vote"
    case Fav(_, _, _) => "/fave"
    case Unfav(_, _, _) => "/fave"
    case Reply(_, _, _, _) => "/comment"
  }

  /** The parameter map each public action passes. */
  function Parameters(a: Action): ParameterMap
  {
    match a
    case LogIn(u, pw) => map["goto" := Text("news"), "acct" := Text(u), "pw" := Text(pw)]
    case Flag(u, pw, id) => map["acct" := Text(u), "pw" := Text(pw), "id" := Number(id)]
    case Upvote(u, pw, id) => map["acct" := Text(u), "pw" := Text(pw), "id" := Number(id), "how" := Text("up")]
    case Downvote(u, pw, id) => map["acct" := Text(u), "pw" := Text(pw), "id" := Number(id), "how" := Text("down")]
    case Fav(u, pw, id) => map["acct" := Text(u), "pw" := Text(pw), "id" := Number(id)]
    case Unfav(u, pw, id) => map["acct" := Text(u), "pw" := Text(pw), "id" := Number(id), "un" := Text("t")]
    case Reply(u, pw, parent, text) => map["acct" := Text(u), "pw" := Text(pw), "parent" := Number(parent), "text" := Text(text)]
  }

  /** Every action logs in with its own credentials as it acts. */
  lemma CredentialsInEveryAction(a: Action)
    ensures "acct" in Parameters(a) && Parameters(a)["acct"] == Text(a.username)
    ensures "pw" in Parameters(a) && Parameters(a)["pw"] == Text(a.password)
  {
  }

  /** Upvote and downvote post the same map to the same path except for `how`. */
  lemma VoteMapsDifferOnlyInHow(u: Username, pw: string, id: ItemID)
    ensures Path(Upvote(u, pw, id)) == Path(Downvote(u, pw, id)) == "/vote"
    ensures Parameters(Upvote(u, pw, id)).Keys == Parameters(Downvote(u, pw, id)).Keys
    ensures Parameters(Upvote(u, pw, id))["how"] == Text("up")
    ensures Parameters(Downvote(u, pw, id))["how"] == Text("down")
    ensures forall k :: k in Parameters(Upvote(u, pw, id)) && k != "how" ==>
      Parameters(Upvote(u, pw, id))[k] == Parameters(Downvote(u, pw, id))[k]
  {
  }

  /** Unfavoriting posts the favorite map plus `un=t` to the same path. */
  lemma UnfavIsFavPlusUn(u: Username, pw: string, id: ItemID)
    ensures Path(Unfav(u, pw, id)) == Path(Fav(u, pw, id)) == "/fave"
    ensures "un" !in Parameters(Fav(u, pw, id))
    ensures Parameters(Unfav(u, pw, id)) == Parameters(Fav(u, pw, id))["un" := Text("t")]
  {
  }

  // ----- the request body -----

  /** `order` is the dictionary's iteration order: each key exactly once. */
  ghost predicate Enumerates(order: seq<string>, p: ParameterMap)
  {
    && (forall i :: 0 <= i < |order| ==> order[i] in p)
    && (forall k :: k in p ==> k in order)
    && (forall i, j :: 0 <= i < j < |order| ==> order[i] != order[j])
  }

  /** `"\(parameter.key)=\(parameter.value)"`. */
  function Entry(k: string, v: ParamValue): string
  {
    k + "=" + Render(v)
  }

  function Entries(p: ParameterMap, order: seq<string>): seq<string>
    requires forall i :: 0 <= i < |order| ==> order[i] in p
  {
    seq(|order|, i requires 0 <= i < |order| => Entry(order[i], p[order[i]]))
  }

  /** The body of `authenticadedAction` before percent-encoding: one entry per
      parameter, appended in iteration order by `reduce(into:)`, then joined by '&'. */
  method FormBody(p: ParameterMap, order: seq<string>) returns (body: string)
    requires Enumerates(order, p)
    ensures body == Join(Entries(p, order), '&')
    ensures FormSafe(p) ==> ParseBody(body) == Rendered(p)
  {
    var parts: seq<string> := [];
    var i := 0;
    while i < |order|
      invariant 0 <= i <= |order|
      invariant parts == Entries(p, order[..i])
    {
      parts := parts + [Entry(order[i], p[order[i]])];
      i := i + 1;
    }
    assert order[..i] == order;
    body := Join(parts, '&');
    if FormSafe(p) {
      FormBodyRoundTrip(p, order);
    }
  }

  // ----- reading a body back, as a form reader does -----

  /** A body piece up to its first '=' is the key, the rest the value. */
  function ParsePair(piece: string): (kv: (string, string))
  {
    match IndexOf(piece, '=')
    case None => (piece, "")
    case Some(i) => (piece[..i], piece[i + 1..])
  }

  /** Later pairs override earlier ones. */
  function PairsToMap(pairs: seq<(string, string)>): map<string, string>
    decreases |pairs|
  {
    if pairs == [] then map[]
    else PairsToMap(pairs[..|pairs| - 1])[pairs[|pairs| - 1].0 := pairs[|pairs| - 1].1]
  }

  function ParseBody(body: string): map<string, string>
  {
    var pieces := Split(body, '&');
    PairsToMap(seq(|pieces|, i requires 0 <= i < |pieces| => ParsePair(pieces[i])))
  }

  /** What the body is meant to carry: each key with its rendered value. */
  function Rendered(p: ParameterMap): (m: map<string, string>)
    ensures m.Keys == p.Keys
  {
    map k | k in p :: Render(p[k])
  }

  /** A map whose keys hold neither '&' nor '=' and whose values hold no '&'. */
  ghost predicate FormSafe(p: ParameterMap)
  {
    forall k :: k in p ==> '&' !in k && '=' !in k && '&' !in Render(p[k])
  }

  lemma ParsePairOfEntry(k: string, v: string)
    requires '=' !in k
    ensures ParsePair(k + "=" + v) == (k, v)
  {
    var s := k + "=" + v;
    assert s[..|k|] == k && s[|k|] == '=';
    assert IndexOf(s, '=') == Some(|k|);
    assert s[|k| + 1..] == v;
  }

  /** Pairs that agree with `m` build the restriction of `m` to their keys. */
  lemma {:induction false} PairsToMapOf(keys: seq<string>, m: map<string, string>)
    requires forall i :: 0 <= i < |keys| ==> keys[i] in m
    ensures PairsToMap(seq(|keys|, i requires 0 <= i < |keys| => (keys[i], m[keys[i]])))
         == map k | k in keys :: m[k]
    decreases |keys|
  {
    var pairs := seq(|keys|, i requires 0 <= i < |keys| => (keys[i], m[keys[i]]));
    if keys != [] {
      var init := keys[..|keys| - 1];
      PairsToMapOf(init, m);
      assert pairs[..|pairs| - 1] == seq(|init|, i requires 0 <= i < |init| => (init[i], m[init[i]]));
      assert forall k :: k in keys <==> k in init || k == keys[|keys| - 1] by {
        assert keys == init + [keys[|keys| - 1]];
      }
    }
  }

  /** A map restricted to an enumeration of all its keys is the map itself. */
  lemma RestrictToAllKeys(keys: seq<string>, m: map<string, string>)
    requires forall k :: k in m <==> k in keys
    ensures (map k | k in keys :: m[k]) == m
  {
  }

  lemma EntryReadsBack(k: string, v: ParamValue)
    requires '&' !in k && '=' !in k && '&' !in Render(v)
    ensures Entry(k, v) != "" && '&' !in Entry(k, v)
    ensures ParsePair(Entry(k, v)) == (k, Render(v))
  {
    ParsePairOfEntry(k, Render(v));
  }

  lemma PlainPairs(p: ParameterMap, order: seq<string>)
    requires (forall i :: 0 <= i < |order| ==> order[i] in p) && FormSafe(p)
    ensures var es := Entries(p, order);
      && Split(Join(es, '&'), '&') == es
      && seq(|es|, i requires 0 <= i < |es| => ParsePair(es[i]))
         == seq(|order|, i requires 0 <= i < |order| => (order[i], Rendered(p)[order[i]]))
  {
    var es := Entries(p, order);
    forall i | 0 <= i < |es|
      ensures es[i] != "" && '&' !in es[i] && ParsePair(es[i]) == (order[i], Rendered(p)[order[i]])
    {
      EntryReadsBack(order[i], p[order[i]]);
    }
    SplitJoin(es, '&');
  }

  /** Reading the body back gives every parameter with its rendered value,
      provided separators occur only where the body puts them. */
  lemma FormBodyRoundTrip(p: ParameterMap, order: seq<string>)
    requires Enumerates(order, p) && FormSafe(p)
    ensures ParseBody(Join(Entries(p, order), '&')) == Rendered(p)
  {
    PlainPairs(p, order);
    PairsToMapOf(order, Rendered(p));
    RestrictToAllKeys(order, Rendered(p));
  }

  /** The keys the actions use hold neither '&' nor '='. */
  lemma FixedKeysSafe()
    ensures forall k :: k in ActionKeys ==> '&' !in k && '=' !in k
  {
  }

  const ActionKeys: set<string> := {"goto", "acct", "pw", "id", "how", "un", "parent", "text"}

  lemma NumberRenderSafe(n: ItemID)
    ensures '&' !in Render(Number(n))
  {
    if '&' in DecimalString(n) {
      DecimalCharacters(n, '&');
    }
  }

  /** The fixed keys of every action and its rendered ids are safe, so the
      map is safe exactly when the user name, the password and the reply text
      hold no '&'. */
  lemma ActionFormSafe(a: Action)
    ensures FormSafe(Parameters(a)) <==>
      '&' !in a.username && '&' !in a.password && (a.Reply? ==> '&' !in a.text)
  {
    var p := Parameters(a);
    FixedKeysSafe();
    match a
    case LogIn(u, pw) =>
      assert p.Keys == {"goto", "acct", "pw"};
    case Flag(u, pw, id) =>
      NumberRenderSafe(id);
      assert p.Keys == {"acct", "pw", "id"};
    case Upvote(u, pw, id) =>
      NumberRenderSafe(id);
      assert p.Keys == {"acct", "pw", "id", "how"};
    case Downvote(u, pw, id) =>
      NumberRenderSafe(id);
      assert p.Keys == {"acct", "pw", "id", "how"};
    case Fav(u, pw, id) =>
      NumberRenderSafe(id);
      assert p.Keys == {"acct", "pw", "id"};
    case Unfav(u, pw, id) =>
      NumberRenderSafe(id);
      assert p.Keys == {"acct", "pw", "id", "un"};
    case Reply(u, pw, parent, text) =>
      NumberRenderSafe(parent);
      assert p.Keys == {"acct", "pw", "parent", "text"};
  }

  lemma {:induction false} PairsLackAmpersand(pairs: seq<(string, string)>)
    requires forall i :: 0 <= i < |pairs| ==> '&' !in pairs[i].1
    ensures forall k :: k in PairsToMap(pairs) ==> '&' !in PairsToMap(pairs)[k]
    decreases |pairs|
  {
    if pairs != [] {
      PairsLackAmpersand(pairs[..|pairs| - 1]);
    }
  }

  /** Whatever the body, no value read from it holds '&': it is split there. */
  lemma ReadValuesLackAmpersand(body: string)
    ensures forall k :: k in ParseBody(body) ==> '&' !in ParseBody(body)[k]
  {
    var pieces := Split(body, '&');
    SplitLacksSeparator(body, '&');
    var pairs := seq(|pieces|, i requires 0 <= i < |pieces| => ParsePair(pieces[i]));
    forall i | 0 <= i < |pairs|
      ensures '&' !in pairs[i].1
    {
      match IndexOf(pieces[i], '=')
      case None =>
      case Some(j) =>
        assert pairs[i].1 == pieces[i][j + 1..];
    }
    PairsLackAmpersand(pairs);
  }

  /** A parameter whose rendered value holds '&' is never read back, by any body. */
  lemma AmpersandValueNeverReadsBack(p: ParameterMap, k: string, body: string)
    requires k in p && '&' in Render(p[k])
    ensures ParseBody(body) != Rendered(p)
  {
    ReadValuesLackAmpersand(body);
    assert Rendered(p)[k] == Render(p[k]);
  }

  /** An action's body reads back, in every iteration order, exactly when its
      user name, password and reply text hold no '&'. */
  lemma ActionBodyReadsBack(a: Action, order: seq<string>)
    requires Enumerates(order, Parameters(a))
    ensures ParseBody(Join(Entries(Parameters(a), order), '&')) == Rendered(Parameters(a)) <==>
      '&' !in a.username && '&' !in a.password && (a.Reply? ==> '&' !in a.text)
  {
    var p := Parameters(a);
    var body := Join(Entries(p, order), '&');
    ActionFormSafe(a);
    CredentialsInEveryAction(a);
    if FormSafe(p) {
      FormBodyRoundTrip(p, order);
    } else if '&' in a.username {
      AmpersandValueNeverReadsBack(p, "acct", body);
    } else if '&' in a.password {
      AmpersandValueNeverReadsBack(p, "pw", body);
    } else {
      assert p["text"] == Text(a.text);
      AmpersandValueNeverReadsBack(p, "text", body);
    }
  }

  lemma AmpersandValueBody()
    ensures Join(Entries(map["pw" := Text("b&c")], ["pw"]), '&') == "pw=b&c"
  {
    var p := map["pw" := Text("b&c")];
    assert Render(p["pw"]) == "b&c";
    assert Entry("pw", p["pw"]) == "pw=b&c";
    assert Entries(p, ["pw"]) == [Entry("pw", p["pw"])];
  }

  lemma AmpersandValuePieces()
    ensures Split("pw=b&c", '&') == ["pw=b", "c"]
  {
    var pieces := ["pw=b", "c"];
    SplitJoin(pieces, '&');
    assert Join(pieces, '&') == "pw=b&c";
  }

  /** A body whose pieces are `k=v` and `c` reads back as those two pairs. */
  lemma ReadTwoPieces(body: string, k: string, v: string, c: string)
    requires Split(body, '&') == [k + "=" + v, c]
    requires '=' !in k && '=' !in c && k != c
    ensures ParseBody(body) == map[k := v, c := ""]
  {
    var pieces := [k + "=" + v, c];
    ParsePairOfEntry(k, v);
    PairWithoutValue(c);
    var pairs := seq(|pieces|, i requires 0 <= i < |pieces| => ParsePair(pieces[i]));
    assert pairs == [(k, v), (c, "")];
    assert pairs[..1] == [(k, v)] && pairs[..1][..0] == [];
    assert PairsToMap(pairs[..1]) == map[k := v];
    assert PairsToMap(pairs) == map[k := v][c := ""];
  }

  lemma AmpersandValueRead()
    ensures ParseBody("pw=b&c") == map["pw" := "b", "c" := ""]
  {
    AmpersandValuePieces();
    assert "pw" + "=" + "b" == "pw=b";
    ReadTwoPieces("pw=b&c", "pw", "b", "c");
  }

  lemma PairWithoutValue(k: string)
    requires '=' !in k
    ensures ParsePair(k) == (k, "")
  {
  }

  /** A value holding '&' does not survive the plain body: the entry `pw=b&c`
      reads back as `pw` = `b` and a stray key `c`. */
  lemma AmpersandSplitsValue()
    ensures var p := map["pw" := Text("b&c")];
      ParseBody(Join(Entries(p, ["pw"]), '&')) != Rendered(p)
  {
    AmpersandValueBody();
    AmpersandValueRead();
    var p := map["pw" := Text("b&c")];
    assert "c" !in Rendered(p);
  }

  /** Every action puts the password in as a value, so a password `b&c`
      reaches the body as the entry `pw=b&c`. */
  lemma PasswordEntry(a: Action)
    requires a.password == "b&c"
    ensures Entry("pw", Parameters(a)["pw"]) == "pw=b&c"
  {
    CredentialsInEveryAction(a);
  }

  // ----- the body with its separators escaped -----

  /** Escapes the three characters a form reader treats specially. */
  function EscapeChar(c: char): (r: string)
    ensures '&' !in r && '=' !in r && |r| >= 1
  {
    if c == '%' then "%25"
    else if c == '&' then "%26"
    else if c == '=' then "%3D"
    else [c]
  }

  function Escape(s: string): (r: string)
    ensures '&' !in r && '=' !in r
    decreases |s|
  {
    if s == [] then [] else EscapeChar(s[0]) + Escape(s[1..])
  }

  /** The character `%ab` stands for, if it is one of the three escapes. */
  function Unescaped(a: char, b: char): Option<char>
  {
    if a == '2' && b == '5' then Some('%')
    else if a == '2' && b == '6' then Some('&')
    else if a == '3' && b == 'D' then Some('=')
    else None
  }

  function Unescape(s: string): string
    decreases |s|
  {
    if s == [] then []
    else if |s| >= 3 && s[0] == '%' && Unescaped(s[1], s[2]).Some? then [Unescaped(s[1], s[2]).value] + Unescape(s[3..])
    else [s[0]] + Unescape(s[1..])
  }

  lemma {:induction false} EscapeRoundTrip(s: string)
    ensures Unescape(Escape(s)) == s
    decreases |s|
  {
    if s != [] {
      EscapeRoundTrip(s[1..]);
      var e := Escape(s);
      var rest := Escape(s[1..]);
      assert e == EscapeChar(s[0]) + rest;
      if s[0] == '%' || s[0] == '&' || s[0] == '=' {
        assert e[0] == '%' && Unescaped(e[1], e[2]) == Some(s[0]) && e[3..] == rest;
      } else {
        assert e[0] == s[0] && e[1..] == rest;
      }
    }
  }

  /** An entry with key and value escaped. */
  function EscapedEntry(k: string, v: ParamValue): string
  {
    Escape(k) + "=" + Escape(Render(v))
  }

  function EscapedEntries(p: ParameterMap, order: seq<string>): seq<string>
    requires forall i :: 0 <= i < |order| ==> order[i] in p
  {
    seq(|order|, i requires 0 <= i < |order| => EscapedEntry(order[i], p[order[i]]))
  }

  /** The body with every key and value escaped before they are joined. */
  function EscapedFormBody(p: ParameterMap, order: seq<string>): string
    requires forall i :: 0 <= i < |order| ==> order[i] in p
  {
    Join(EscapedEntries(p, order), '&')
  }

  function UnescapedPair(piece: string): (string, string)
  {
    var kv := ParsePair(piece);
    (Unescape(kv.0), Unescape(kv.1))
  }

  function ParseEscapedBody(body: string): map<string, string>
  {
    var pieces := Split(body, '&');
    PairsToMap(seq(|pieces|, i requires 0 <= i < |pieces| => UnescapedPair(pieces[i])))
  }

  lemma EscapedEntryReadsBack(k: string, v: ParamValue)
    ensures EscapedEntry(k, v) != "" && '&' !in EscapedEntry(k, v)
    ensures UnescapedPair(EscapedEntry(k, v)) == (k, Render(v))
  {
    ParsePairOfEntry(Escape(k), Escape(Render(v)));
    EscapeRoundTrip(k);
    EscapeRoundTrip(Render(v));
  }

  lemma EscapedPairs(p: ParameterMap, order: seq<string>)
    requires forall i :: 0 <= i < |order| ==> order[i] in p
    ensures var es := EscapedEntries(p, order);
      && Split(Join(es, '&'), '&') == es
      && seq(|es|, i requires 0 <= i < |es| => UnescapedPair(es[i]))
         == seq(|order|, i requires 0 <= i < |order| => (order[i], Rendered(p)[order[i]]))
  {
    var es := EscapedEntries(p, order);
    forall i | 0 <= i < |es|
      ensures es[i] != "" && '&' !in es[i] && UnescapedPair(es[i]) == (order[i], Rendered(p)[order[i]])
    {
      EscapedEntryReadsBack(order[i], p[order[i]]);
    }
    SplitJoin(es, '&');
  }

  /** With escaping, every parameter map reads back exactly, whatever its text. */
  lemma EscapedFormBodyRoundTrip(p: ParameterMap, order: seq<string>)
    requires Enumerates(order, p)
    ensures ParseEscapedBody(EscapedFormBody(p, order)) == Rendered(p)
  {
    EscapedPairs(p, order);
    PairsToMapOf(order, Rendered(p));
    RestrictToAllKeys(order, Rendered(p));
  }

  /** The escaped body keeps the passwords that split the plain one. */
  lemma EscapedBodyKeepsAmpersand(order: seq<string>)
    requires Enumerates(order, Parameters(LogIn("a", "b&c")))
    ensures var m := ParseEscapedBody(EscapedFormBody(Parameters(LogIn("a", "b&c")), order));
      "pw" in m && m["pw"] == "b&c"
  {
    EscapedFormBodyRoundTrip(Parameters(LogIn("a", "b&c")), order);
  }

  // ----- the response -----

  /** What `URLSession.shared.data(for:)` gives: a thrown error or a status code. */
  datatype PostReply = PostFailed | PostStatus(code: int)

  datatype ActionError =
    | TransportError    // rethrown from `data(for:)`
    | BadServerResponse // `URLError(.badServerResponse)`

  /** An action succeeds exactly on a status in 200...299. */
  function ActionOutcome(reply: PostReply): (r: Result<(), ActionError>)
    ensures r.Success? <==> reply.PostStatus? && 200 <= reply.code <= 299
    ensures r == Failure(TransportError) <==> reply.PostFailed?
  {
    match reply
    case PostFailed => Failure(TransportError)
    case PostStatus(code) => if 200 <= code <= 299 then Success(()) else Failure(BadServerResponse)
  }

  /** One public action: its path, its body for the dictionary's iteration
      order, and the outcome for the server's reply. */
  method Perform(a: Action, order: seq<string>, reply: PostReply)
    returns (path: string, body: string, outcome: Result<(), ActionError>)
    requires Enumerates(order, Parameters(a))
    ensures path == Path(a)
    ensures body == Join(Entries(Parameters(a), order), '&')
    ensures ParseBody(body) == Rendered(Parameters(a)) <==>
      '&' !in a.username && '&' !in a.password && (a.Reply? ==> '&' !in a.text)
    ensures outcome.Success? <==> reply.PostStatus? && 200 <= reply.code <= 299
  {
    path := Path(a);
    body := FormBody(Parameters(a), order);
    ActionBodyReadsBack(a, order);
    outcome := ActionOutcome(reply);
  }
}
