/**
 * Keeping the Hetzner token out of error text, and the HTTP response out of
 * error values (internal/hcloudapi/redact.go). A `char` stands for one byte.
 */
module Redact {
  import opened Common
  import opened Errors

  const MIN_ECHO := 12
  const REDACTED := "[redacted]"

  // ---------------------------------------------------------------- token runs

  ghost predicate OccursAt(sub: string, text: string, at: int)
  {
    0 <= at <= |text| - |sub| && text[at..at + |sub|] == sub
  }

  ghost predicate Occurs(sub: string, text: string)
  {
    exists at :: OccursAt(sub, text, at)
  }

  /** A run of the token long enough to be scrubbed by value. */
  ghost predicate Echo(sub: string, token: string)
  {
    |sub| >= MIN_ECHO && Occurs(sub, token)
  }

  ghost predicate Clean(text: string, token: string)
  {
    forall sub | Echo(sub, token) :: !Occurs(sub, text)
  }

  predicate Alphanumeric(c: char)
  {
    'a' <= c <= 'z' || 'A' <= c <= 'Z' || '0' <= c <= '9'
  }

  /** What NewClientFromEnv checks before it stores the token. */
  ghost predicate AcceptedToken(token: string)
  {
    forall c | c in token :: Alphanumeric(c)
  }

  /** All that scrubbing needs of a token: it shares no bracket with the replacement text. */
  predicate BracketFree(token: string)
  {
    '[' !in token && ']' !in token
  }

  lemma AcceptedIsBracketFree(token: string)
    requires AcceptedToken(token)
    ensures BracketFree(token)
  {
    assert !Alphanumeric('[') && !Alphanumeric(']');
  }

  /** `n` is the length of the longest prefix of `s` found anywhere in `token`. */
  ghost predicate IsLongestRun(n: nat, s: string, token: string)
  {
    && n <= |s|
    && Occurs(s[..n], token)
    && forall m | n < m <= |s| :: !Occurs(s[..m], token)
  }

  lemma EmptyOccurs(token: string)
    ensures Occurs("", token)
  {
    assert OccursAt("", token, 0);
  }

  lemma MatchExtends(s: string, m: nat, token: string, at: nat, n: nat)
    requires m <= |s| && OccursAt(s[..m], token, at) && n < m
    ensures at + n < |token| && s[n] == token[at + n]
  {
    assert token[at..at + m][n] == token[at + n] && s[..m][n] == s[n];
  }

  /** longestRun: the nested matching loops compute exactly the longest run. */
  method LongestRun(s: string, token: string) returns (best: nat)
    ensures IsLongestRun(best, s, token)
  {
    best := 0;
    EmptyOccurs(token);
    for j := 0 to |token|
      invariant best <= |s| && Occurs(s[..best], token)
      invariant forall m, at | best < m <= |s| && 0 <= at < j :: !OccursAt(s[..m], token, at)
    {
      var n := 0;
      while n < |s| && j + n < |token| && s[n] == token[j + n]
        invariant n <= |s| && j + n <= |token|
        invariant s[..n] == token[j..j + n]
      {
        assert s[..n + 1] == s[..n] + [s[n]] && token[j..j + n + 1] == token[j..j + n] + [token[j + n]];
        n := n + 1;
      }
      forall m | n < m <= |s| ensures !OccursAt(s[..m], token, j) {
        if OccursAt(s[..m], token, j) {
          MatchExtends(s, m, token, j, n);
        }
      }
      if n > best {
        assert OccursAt(s[..n], token, j);
        best := n;
      }
    }
    forall m | best < m <= |s| ensures !Occurs(s[..m], token) {
      assert forall at :: OccursAt(s[..m], token, at) ==> 0 <= at < |token|;
    }
  }

  lemma LongestRunUnique(n: nat, m: nat, s: string, token: string)
    requires IsLongestRun(n, s, token) && IsLongestRun(m, s, token)
    ensures n == m
  {
  }

  lemma {:induction false} LongestRunFrom(s: string, token: string, n: nat)
    requires n <= |s| && forall m | n < m <= |s| :: !Occurs(s[..m], token)
    ensures exists k: nat :: IsLongestRun(k, s, token)
  {
    EmptyOccurs(token);
    assert s[..0] == "";
    if Occurs(s[..n], token) {
      assert IsLongestRun(n, s, token);
    } else {
      LongestRunFrom(s, token, n - 1);
    }
  }

  ghost function RunAt(s: string, token: string): (n: nat)
    ensures IsLongestRun(n, s, token)
  {
    LongestRunFrom(s, token, |s|);
    var n: nat :| IsLongestRun(n, s, token);
    n
  }

  // ---------------------------------------------------------------- scrubToken

  /** How scrubToken cuts a message up: single bytes kept, token runs cut out. */
  datatype Piece = Kept(byte: char) | Cut(run: string)

  ghost function Pieces(msg: string, token: string): seq<Piece>
    decreases |msg|
  {
    if msg == "" then []
    else
      var n := RunAt(msg, token);
      if n >= MIN_ECHO then [Cut(msg[..n])] + Pieces(msg[n..], token)
      else [Kept(msg[0])] + Pieces(msg[1..], token)
  }

  ghost function Original(ps: seq<Piece>): string
  {
    if ps == [] then ""
    else (match ps[0] case Kept(c) => [c] case Cut(run) => run) + Original(ps[1..])
  }

  ghost function Render(ps: seq<Piece>): string
  {
    if ps == [] then ""
    else (match ps[0] case Kept(c) => [c] case Cut(_) => REDACTED) + Render(ps[1..])
  }

  ghost function Scrub(msg: string, token: string): string
  {
    Render(Pieces(msg, token))
  }

  lemma ScrubStep(msg: string, token: string)
    requires msg != ""
    ensures var n := RunAt(msg, token);
      Scrub(msg, token) ==
        if n >= MIN_ECHO then REDACTED + Scrub(msg[n..], token) else [msg[0]] + Scrub(msg[1..], token)
  {
    var n := RunAt(msg, token);
    var rest := if n >= MIN_ECHO then msg[n..] else msg[1..];
    assert Pieces(msg, token)[1..] == Pieces(rest, token);
  }

  lemma RunAtIs(n: nat, s: string, token: string)
    requires IsLongestRun(n, s, token)
    ensures RunAt(s, token) == n
  {
    LongestRunUnique(n, RunAt(s, token), s, token);
  }

  lemma AdvanceCut(msg: string, i: nat, n: nat, b: string, token: string)
    requires i < |msg| && RunAt(msg[i..], token) == n >= MIN_ECHO && i + n <= |msg|
    requires Scrub(msg, token) == b + Scrub(msg[i..], token)
    ensures Scrub(msg, token) == b + REDACTED + Scrub(msg[i + n..], token)
  {
    ScrubStep(msg[i..], token);
    assert msg[i..][n..] == msg[i + n..];
    Regroup(b, REDACTED, Scrub(msg[i + n..], token));
  }

  lemma AdvanceKept(msg: string, i: nat, b: string, token: string)
    requires i < |msg| && RunAt(msg[i..], token) < MIN_ECHO
    requires Scrub(msg, token) == b + Scrub(msg[i..], token)
    ensures Scrub(msg, token) == b + [msg[i]] + Scrub(msg[i + 1..], token)
  {
    ScrubStep(msg[i..], token);
    assert msg[i..][0] == msg[i] && msg[i..][1..] == msg[i + 1..];
    Regroup(b, [msg[i]], Scrub(msg[i + 1..], token));
  }

  lemma ScrubAdvance(msg: string, i: nat, n: nat, b: string, token: string)
    requires i < |msg| && IsLongestRun(n, msg[i..], token)
    requires Scrub(msg, token) == b + Scrub(msg[i..], token)
    ensures n >= MIN_ECHO ==> i + n <= |msg| && Scrub(msg, token) == b + REDACTED + Scrub(msg[i + n..], token)
    ensures n < MIN_ECHO ==> Scrub(msg, token) == b + [msg[i]] + Scrub(msg[i + 1..], token)
  {
    RunAtIs(n, msg[i..], token);
    if n >= MIN_ECHO {
      AdvanceCut(msg, i, n, b, token);
    } else {
      AdvanceKept(msg, i, b, token);
    }
  }

  lemma Regroup(a: string, b: string, c: string)
    ensures a + (b + c) == a + b + c
  {
  }

  /** scrubToken: the builder loop computes `Scrub`; no token stored means no change. */
  method ScrubToken(msg: string, tokenPtr: Option<string>) returns (out: string)
    ensures tokenPtr.None? ==> out == msg
    ensures tokenPtr.Some? ==> out == Scrub(msg, tokenPtr.value)
  {
    if tokenPtr.None? {
      return msg;
    }
    var token := tokenPtr.value;
    var b := "";
    var changed := false;
    var i := 0;
    while i < |msg|
      invariant i <= |msg|
      invariant Scrub(msg, token) == b + Scrub(msg[i..], token)
      invariant !changed ==> b == msg[..i]
    {
      var n := LongestRun(msg[i..], token);
      ScrubAdvance(msg, i, n, b, token);
      if n >= MIN_ECHO {
        b := b + REDACTED;
        i := i + n;
        changed := true;
      } else {
        b := b + [msg[i]];
        i := i + 1;
      }
    }
    assert Scrub(msg[i..], token) == "";
    if !changed {
      assert msg[..i] == msg;
      return msg;
    }
    return b;
  }

  /** At every place the piece taken is the longest token run there if that is long enough, else one byte. */
  ghost predicate Greedy(ps: seq<Piece>, token: string)
  {
    ps == [] ||
    (var rest := Original(ps);
     && (ps[0].Cut? ==> |ps[0].run| >= MIN_ECHO && IsLongestRun(|ps[0].run|, rest, token) && rest[..|ps[0].run|] == ps[0].run)
     && (ps[0].Kept? ==> forall n: nat | IsLongestRun(n, rest, token) :: n < MIN_ECHO)
     && Greedy(ps[1..], token))
  }

  lemma CutPiece(msg: string, n: nat, ps: seq<Piece>, token: string)
    requires IsLongestRun(n, msg, token) && n >= MIN_ECHO && Original(ps) == msg[n..] && Greedy(ps, token)
    ensures Original([Cut(msg[..n])] + ps) == msg && Greedy([Cut(msg[..n])] + ps, token)
  {
    var qs := [Cut(msg[..n])] + ps;
    assert qs[1..] == ps && msg == msg[..n] + msg[n..];
  }

  lemma KeptPiece(msg: string, n: nat, ps: seq<Piece>, token: string)
    requires msg != "" && IsLongestRun(n, msg, token) && n < MIN_ECHO && Original(ps) == msg[1..] && Greedy(ps, token)
    ensures Original([Kept(msg[0])] + ps) == msg && Greedy([Kept(msg[0])] + ps, token)
  {
    var qs := [Kept(msg[0])] + ps;
    assert qs[1..] == ps && msg == [msg[0]] + msg[1..];
    forall m: nat | IsLongestRun(m, msg, token) ensures m < MIN_ECHO {
      LongestRunUnique(n, m, msg, token);
    }
  }

  /** The pieces spell the message, and each one cut out was the longest token run at its place; nothing else changed. */
  lemma {:induction false} ScrubDecomposes(msg: string, token: string)
    ensures Original(Pieces(msg, token)) == msg && Greedy(Pieces(msg, token), token)
    decreases |msg|
  {
    if msg != "" {
      var n := RunAt(msg, token);
      if n >= MIN_ECHO {
        ScrubDecomposes(msg[n..], token);
        CutPiece(msg, n, Pieces(msg[n..], token), token);
      } else {
        ScrubDecomposes(msg[1..], token);
        KeptPiece(msg, n, Pieces(msg[1..], token), token);
      }
    }
  }

  /** So every cut is a run of twelve or more token bytes. */
  lemma {:induction false} CutsAreEchoes(ps: seq<Piece>, token: string)
    requires Greedy(ps, token)
    ensures forall p | p in ps && p.Cut? :: Echo(p.run, token)
  {
    if ps != [] {
      CutsAreEchoes(ps[1..], token);
      assert ps == [ps[0]] + ps[1..];
    }
  }

  /** And no other decomposition of the message is greedy: the scrub is determined by that alone. */
  lemma {:induction false} GreedyUnique(ps: seq<Piece>, qs: seq<Piece>, token: string)
    requires Greedy(ps, token) && Greedy(qs, token) && Original(ps) == Original(qs)
    ensures ps == qs
    decreases |ps|
  {
    if ps != [] && qs != [] {
      GreedySameHead(ps, qs, token);
      GreedyUnique(ps[1..], qs[1..], token);
      assert ps == [ps[0]] + ps[1..] && qs == [qs[0]] + qs[1..];
    } else if ps != [] {
      OriginalNonEmpty(ps, token);
    } else if qs != [] {
      OriginalNonEmpty(qs, token);
    }
  }

  lemma OriginalNonEmpty(ps: seq<Piece>, token: string)
    requires ps != [] && Greedy(ps, token)
    ensures Original(ps) != ""
  {
  }

  lemma GreedySameHead(ps: seq<Piece>, qs: seq<Piece>, token: string)
    requires ps != [] && qs != [] && Greedy(ps, token) && Greedy(qs, token) && Original(ps) == Original(qs)
    ensures ps[0] == qs[0] && Original(ps[1..]) == Original(qs[1..])
  {
    var msg := Original(ps);
    if ps[0].Cut? && qs[0].Cut? {
      LongestRunUnique(|ps[0].run|, |qs[0].run|, msg, token);
      assert Original(ps[1..]) == msg[|ps[0].run|..] && Original(qs[1..]) == msg[|qs[0].run|..];
    } else if ps[0].Kept? && qs[0].Kept? {
      assert Original(ps[1..]) == msg[1..] && Original(qs[1..]) == msg[1..];
    }
  }

  lemma CutShowsBracket(msg: string, token: string, k: nat)
    requires msg != "" && RunAt(msg, token) >= MIN_ECHO
    requires 0 < k <= |Scrub(msg, token)|
    ensures '[' in Scrub(msg, token)[..k]
  {
    ScrubStep(msg, token);
    assert Scrub(msg, token)[..k][0] == '[';
  }

  /** Output bytes before the first bracket are the input's own. */
  lemma {:induction false} KeptPrefix(msg: string, token: string, k: nat)
    requires k <= |Scrub(msg, token)|
    requires '[' !in Scrub(msg, token)[..k]
    ensures k <= |msg| && msg[..k] == Scrub(msg, token)[..k]
    decreases k
  {
    if k > 0 {
      assert msg != "";
      if RunAt(msg, token) >= MIN_ECHO {
        CutShowsBracket(msg, token, k);
      } else {
        ScrubStep(msg, token);
        var rest := Scrub(msg[1..], token);
        assert Scrub(msg, token)[..k] == [msg[0]] + rest[..k - 1];
        KeptPrefix(msg[1..], token, k - 1);
        assert msg[..k] == [msg[0]] + msg[1..][..k - 1];
      }
    }
  }

  lemma RunBytes(sub: string, token: string)
    requires BracketFree(token) && Occurs(sub, token)
    ensures BracketFree(sub)
  {
    var at :| OccursAt(sub, token, at);
    forall c | c in sub ensures c in token {
      var i :| 0 <= i < |sub| && sub[i] == c;
      assert token[at..at + |sub|][i] == token[at + i];
    }
  }

  lemma OccursShifted(sub: string, head: string, rest: string, at: nat)
    requires OccursAt(sub, head + rest, at) && at >= |head|
    ensures OccursAt(sub, rest, at - |head|)
  {
    assert (head + rest)[at..at + |sub|] == rest[at - |head|..at - |head| + |sub|];
  }

  lemma OccursOverBracket(sub: string, rest: string, at: nat)
    requires OccursAt(sub, REDACTED + rest, at) && at < |REDACTED| && |sub| >= MIN_ECHO
    ensures ']' in sub
  {
    assert (REDACTED + rest)[9] == ']';
    assert (REDACTED + rest)[at..at + |sub|][9 - at] == ']';
  }

  lemma OccursFirst(msg: string, token: string, sub: string)
    requires OccursAt(sub, Scrub(msg, token), 0) && '[' !in sub
    ensures |sub| <= |msg| && msg[..|sub|] == sub
  {
    assert Scrub(msg, token)[..|sub|] == sub;
    KeptPrefix(msg, token, |sub|);
  }

  lemma NotOverBlock(sub: string, rest: string, at: nat, token: string)
    requires BracketFree(token) && Echo(sub, token) && at < |REDACTED|
    ensures !OccursAt(sub, REDACTED + rest, at)
  {
    RunBytes(sub, token);
    if OccursAt(sub, REDACTED + rest, at) {
      OccursOverBracket(sub, rest, at);
    }
  }

  lemma NotKeptHere(msg: string, sub: string, token: string)
    requires BracketFree(token) && Echo(sub, token) && RunAt(msg, token) < MIN_ECHO
    ensures !OccursAt(sub, Scrub(msg, token), 0)
  {
    RunBytes(sub, token);
    if OccursAt(sub, Scrub(msg, token), 0) {
      OccursFirst(msg, token, sub);
    }
  }

  lemma {:induction false} NoEchoAt(msg: string, token: string, sub: string, at: nat)
    requires BracketFree(token) && Echo(sub, token)
    ensures !OccursAt(sub, Scrub(msg, token), at)
    decreases |msg|
  {
    if msg != "" && OccursAt(sub, Scrub(msg, token), at) {
      ScrubStep(msg, token);
      var n := RunAt(msg, token);
      if n >= MIN_ECHO && at >= |REDACTED| {
        OccursShifted(sub, REDACTED, Scrub(msg[n..], token), at);
        NoEchoAt(msg[n..], token, sub, at - |REDACTED|);
      } else if n >= MIN_ECHO {
        NotOverBlock(sub, Scrub(msg[n..], token), at, token);
      } else if at >= 1 {
        OccursShifted(sub, [msg[0]], Scrub(msg[1..], token), at);
        NoEchoAt(msg[1..], token, sub, at - 1);
      } else {
        NotKeptHere(msg, sub, token);
      }
    }
  }

  /** No run of twelve or more token bytes survives, anywhere in the output. */
  lemma ScrubClean(msg: string, token: string)
    requires BracketFree(token)
    ensures Clean(Scrub(msg, token), token)
    ensures forall sub | |sub| >= 12 && Occurs(sub, token) :: !Occurs(sub, Scrub(msg, token))
  {
    assert forall sub | |sub| >= 12 && Occurs(sub, token) :: Echo(sub, token);
    forall sub | Echo(sub, token) ensures !Occurs(sub, Scrub(msg, token)) {
      forall at: int ensures !OccursAt(sub, Scrub(msg, token), at) {
        if at >= 0 {
          NoEchoAt(msg, token, sub, at);
        }
      }
    }
  }

  lemma CleanTail(msg: string, token: string)
    requires Clean(msg, token) && msg != ""
    ensures Clean(msg[1..], token)
  {
    forall sub | Echo(sub, token) ensures !Occurs(sub, msg[1..]) {
      forall at ensures OccursAt(sub, msg[1..], at) ==> OccursAt(sub, msg, at + 1) {
        if OccursAt(sub, msg[1..], at) {
          assert msg[1..][at..at + |sub|] == msg[at + 1..at + 1 + |sub|];
        }
      }
    }
  }

  lemma PrefixHere(msg: string, n: nat)
    requires n <= |msg|
    ensures Occurs(msg[..n], msg)
  {
    assert OccursAt(msg[..n], msg, 0);
  }

  lemma {:induction false} CleanKept(msg: string, token: string)
    requires Clean(msg, token)
    ensures Scrub(msg, token) == msg
    decreases |msg|
  {
    if msg != "" {
      PrefixHere(msg, RunAt(msg, token));
      ScrubStep(msg, token);
      CleanTail(msg, token);
      CleanKept(msg[1..], token);
    }
  }

  /** A message comes back unchanged exactly when it holds no run to scrub. */
  lemma ScrubUnchangedIff(msg: string, token: string)
    requires BracketFree(token)
    ensures Scrub(msg, token) == msg <==> Clean(msg, token)
    ensures Scrub(msg, token) == msg <==> forall sub | |sub| >= 12 && Occurs(sub, token) :: !Occurs(sub, msg)
  {
    assert forall sub :: Echo(sub, token) <==> |sub| >= 12 && Occurs(sub, token);
    ScrubClean(msg, token);
    if Clean(msg, token) {
      CleanKept(msg, token);
    }
  }

  lemma ScrubIdempotent(msg: string, token: string)
    requires BracketFree(token)
    ensures Scrub(Scrub(msg, token), token) == Scrub(msg, token)
  {
    ScrubClean(msg, token);
    CleanKept(Scrub(msg, token), token);
  }

  /**
   * Why it matters that NewClientFromEnv refuses a token with other bytes in
   * it: with the token "[redacted]ab", a replacement followed by "ab" spells the
   * token again, so the output is not clean and scrubbing twice changes it.
   */
  lemma BracketTokenEscapes()
    ensures var token := "[redacted]ab";
      var msg := "[redacted]abab";
      && Scrub(msg, token) == token
      && !Clean(Scrub(msg, token), token)
      && Scrub(token, token) == "[redacted]"
  {
    var token := "[redacted]ab";
    var msg := "[redacted]abab";
    assert OccursAt(msg[..12], token, 0);
    LongestRunUnique(12, RunAt(msg, token), msg, token);
    ScrubStep(msg, token);
    assert msg[12..] == "ab";
    ShortKept("ab", token);
    assert OccursAt(token, token, 0);
    assert Echo(token, token);
    assert token[..12] == token;
    LongestRunUnique(12, RunAt(token, token), token, token);
    ScrubStep(token, token);
    assert token[12..] == "";
  }

  lemma ShortKept(msg: string, token: string)
    requires |msg| < MIN_ECHO
    ensures Scrub(msg, token) == msg
  {
    forall sub | Echo(sub, token) ensures !Occurs(sub, msg) {
    }
    CleanKept(msg, token);
  }

  // ---------------------------------------------------------------- error trees

  /** Foreign text handling: Error() and the quoted-token regexp. */
  datatype Foreign = Foreign(text: Err -> string, quoted: string -> string)

  predicate Starts(text: string, old_: string)
  {
    old_ <= text
  }

  /** strings.ReplaceAll for a non-empty `old_`: left to right, without overlap. */
  function ReplaceAll(text: string, old_: string, new_: string): string
    decreases |text|
  {
    if text == "" || old_ == "" then text
    else if Starts(text, old_) then new_ + ReplaceAll(text[|old_|..], old_, new_)
    else [text[0]] + ReplaceAll(text[1..], old_, new_)
  }

  predicate HcloudNode(e: Err)
  {
    e.Api? || e.ActionFailure?
  }

  function Unwrap(e: Err): Option<Err>
  {
    if e.Wrap? then Some(e.inner) else None
  }

  predicate Holds(e: Err)
  {
    (e.Api? && e.response.Some?) || (e.ActionFailure? && e.action.Some?)
  }

  /** attached: some error in the tree still holds a response or an action. */
  predicate Attached(e: Err)
  {
    exists n | n in Nodes(e) :: Holds(n)
  }

  ghost function ScrubWith(msg: string, token: Option<string>): string
  {
    if token.None? then msg else Scrub(msg, token.value)
  }

  ghost function Rebuild(e: Err, token: Option<string>, f: Foreign): Err
    requires HcloudNode(e)
  {
    var msg := f.quoted(ScrubWith(e.message, token));
    match e
    case Api(code, _, response, _) =>
      Api(code, if response.Some? && response.value != "" then msg + " (correlation id " + response.value + ")" else msg,
          None, false)
    case ActionFailure(code, _, action, _) =>
      ActionFailure(code, if action.Some? then msg + " (action " + Decimal(action.value) + ")" else msg, None, false)
  }

  /** The first hcloud error met by following Unwrap, if any. */
  function ChainHead(e: Err): (head: Option<Err>)
    ensures head.Some? ==> HcloudNode(head.value)
  {
    if HcloudNode(e) then Some(e)
    else if e.Wrap? then ChainHead(e.inner)
    else None
  }

  ghost function ScrubMessages(nodes: seq<Err>, msg: string, token: Option<string>): string
  {
    if nodes == [] then msg
    else
      var m := if HcloudNode(nodes[0]) then nodes[0].message else "";
      var s := ScrubWith(m, token);
      ScrubMessages(nodes[1..], if s != m then ReplaceAll(msg, m, s) else msg, token)
  }

  ghost function Detached(e: Err, token: Option<string>, f: Foreign): Err
  {
    var head := ChainHead(e);
    if head.Some? then Rebuild(head.value, token, f) else e
  }

  ghost function Redacted(e: Err, token: Option<string>, f: Foreign): Err
  {
    var d := Detached(e, token, f);
    var clean := f.quoted(ScrubMessages(Nodes(d), f.text(d), token));
    if clean == f.text(d) && !Attached(d) then d
    else
      var code := Code(d);
      if code.None? then Plain(clean) else Api(code.value, clean, None, false)
  }

  /** redact: the unwrap loop and the final scrub compute `Redacted`; nil stays nil. */
  method RedactError(err: Option<Err>, token: Option<string>, f: Foreign) returns (out: Option<Err>)
    ensures err.None? ==> out.None?
    ensures err.Some? ==> out == Some(Redacted(err.value, token, f))
  {
    if err.None? {
      return None;
    }
    var e := err.value;
    var cur := err;
    while cur.Some?
      invariant cur.Some? ==> ChainHead(err.value) == ChainHead(cur.value) && e == err.value
      invariant cur.None? ==> e == Detached(err.value, token, f)
      decreases cur.Some?, if cur.Some? then cur.value else err.value
    {
      if HcloudNode(cur.value) {
        e := RebuildNode(cur.value, token, f);
        cur := None;
      } else {
        cur := Unwrap(cur.value);
      }
    }
    var nodes := Nodes(e);
    var msg := f.text(e);
    for i := 0 to |nodes|
      invariant ScrubMessages(nodes, f.text(e), token) == ScrubMessages(nodes[i..], msg, token)
    {
      var m := if HcloudNode(nodes[i]) then nodes[i].message else "";
      var s := ScrubToken(m, token);
      if s != m {
        msg := ReplaceAll(msg, m, s);
      }
      assert nodes[i..][1..] == nodes[i + 1..];
    }
    var clean := f.quoted(msg);
    if clean == f.text(e) && !Attached(e) {
      return Some(e);
    }
    var code := Code(e);
    if code.None? {
      return Some(Plain(clean));
    }
    return Some(Api(code.value, clean, None, false));
  }

  method RebuildNode(e: Err, token: Option<string>, f: Foreign) returns (out: Err)
    requires HcloudNode(e)
    ensures out == Rebuild(e, token, f)
  {
    var scrubbed := ScrubToken(e.message, token);
    var msg := f.quoted(scrubbed);
    match e {
      case Api(code, _, response, _) =>
        if response.Some? && response.value != "" {
          msg := msg + " (correlation id " + response.value + ")";
        }
        return Api(code, msg, None, false);
      case ActionFailure(code, _, action, _) =>
        if action.Some? {
          msg := msg + " (action " + Decimal(action.value) + ")";
        }
        return ActionFailure(code, msg, None, false);
    }
  }

  /** Whatever tree goes in, no error that comes out holds a response or an action. */
  lemma {:induction false} RedactDetaches(e: Err, token: Option<string>, f: Foreign)
    ensures !Attached(Redacted(e, token, f))
    ensures forall n | n in Nodes(Redacted(e, token, f)) ::
      (n.Api? ==> n.response.None?) && (n.ActionFailure? ==> n.action.None?)
  {
    var r := Redacted(e, token, f);
    var d := Detached(e, token, f);
    if r != d {
      assert Nodes(r) == [r];
    }
  }

  lemma {:induction false} ChainFinds<T>(e: Err, pick: Err -> Option<T>)
    requires ChainHead(e).Some?
    requires forall t, i :: pick(Wrap(t, i)).None?
    ensures FindNode(e, pick) == pick(ChainHead(e).value)
  {
    if e.Wrap? {
      ChainFinds(e.inner, pick);
    }
  }

  /**
   * The Hetzner code survives redaction exactly when the hcloud error the
   * unwrap chain reaches, if any, is a value. A pointer there has no code as
   * far as Code is concerned, and gains one when it is rebuilt as a value.
   */
  lemma {:induction false} RedactKeepsCodeIff(e: Err, token: Option<string>, f: Foreign)
    ensures Code(Redacted(e, token, f)) == Code(e)
       <==> !(ChainHead(e).Some? && ChainHead(e).value.byPointer)
    ensures !(ChainHead(e).Some? && ChainHead(e).value.byPointer)
       ==> Classify(Some(Redacted(e, token, f))) == Classify(Some(e))
  {
    var head := ChainHead(e);
    if head.Some? {
      ChainFinds(e, PickApi);
      ChainFinds(e, PickAction);
      assert Code(e) == if head.value.byPointer then None else Some(head.value.code);
      var d := Detached(e, token, f);
      assert Code(d) == Some(head.value.code);
    }
  }

  // ---------------------------------------------------------------- no echo leaves in a message

  /** A window of MIN_ECHO bytes of the token starts `text`. */
  ghost predicate EchoHere(text: string, token: string)
  {
    |text| >= MIN_ECHO && Occurs(text[..MIN_ECHO], token)
  }

  /** In how many places of `text` such a window starts. */
  ghost function Echoes(text: string, token: string): nat
  {
    if text == "" then 0 else (if EchoHere(text, token) then 1 else 0) + Echoes(text[1..], token)
  }

  lemma PrefixOccurs(sub: string, k: nat, token: string)
    requires Occurs(sub, token) && k <= |sub|
    ensures Occurs(sub[..k], token)
  {
    var at :| OccursAt(sub, token, at);
    assert token[at..at + |sub|][..k] == token[at..at + k];
    assert OccursAt(sub[..k], token, at);
  }

  lemma {:induction false} EchoCounted(text: string, at: nat, token: string)
    requires at <= |text| && EchoHere(text[at..], token)
    ensures Echoes(text, token) > 0
  {
    if at == 0 {
      assert text[0..] == text;
    } else {
      assert text[1..][at - 1..] == text[at..];
      EchoCounted(text[1..], at - 1, token);
    }
  }

  lemma {:induction false} NoEchoesInClean(text: string, token: string)
    requires Clean(text, token)
    ensures Echoes(text, token) == 0
  {
    if text != "" {
      if EchoHere(text, token) {
        PrefixHere(text, MIN_ECHO);
        assert Echo(text[..MIN_ECHO], token);
      }
      CleanTail(text, token);
      NoEchoesInClean(text[1..], token);
    }
  }

  lemma CleanIffNoEchoes(text: string, token: string)
    ensures Clean(text, token) <==> Echoes(text, token) == 0
  {
    if Clean(text, token) {
      NoEchoesInClean(text, token);
    }
    if Echoes(text, token) == 0 {
      forall sub | Echo(sub, token) ensures !Occurs(sub, text) {
        forall at ensures !OccursAt(sub, text, at) {
          if OccursAt(sub, text, at) {
            PrefixOccurs(sub, MIN_ECHO, token);
            assert text[at..][..MIN_ECHO] == text[at..at + |sub|][..MIN_ECHO];
            EchoCounted(text, at, token);
          }
        }
      }
    }
  }

  lemma {:induction false} SuffixEchoes(a: string, b: string, token: string)
    ensures Echoes(a + b, token) >= Echoes(b, token)
  {
    if a == "" {
      assert a + b == b;
    } else {
      assert (a + b)[1..] == a[1..] + b;
      SuffixEchoes(a[1..], b, token);
    }
  }

  lemma WindowBracketFree(text: string, token: string)
    requires BracketFree(token) && EchoHere(text, token)
    ensures '[' !in text[..MIN_ECHO] && ']' !in text[..MIN_ECHO]
  {
    RunBytes(text[..MIN_ECHO], token);
  }

  /** Rendered text up to the first bracket is original text. */
  lemma {:induction false} RenderedPrefix(ps: seq<Piece>, k: nat)
    requires k <= |Render(ps)| && '[' !in Render(ps)[..k]
    ensures k <= |Original(ps)| && Original(ps)[..k] == Render(ps)[..k]
    decreases |ps|
  {
    if k > 0 {
      match ps[0]
      case Cut(_) => CutBrackets(ps, k);
      case Kept(c) =>
        assert Render(ps)[..k] == [c] + Render(ps[1..])[..k - 1];
        RenderedPrefix(ps[1..], k - 1);
        assert Original(ps)[..k] == [c] + Original(ps[1..])[..k - 1];
    }
  }

  lemma CutBrackets(ps: seq<Piece>, k: nat)
    requires ps != [] && ps[0].Cut? && 0 < k <= |Render(ps)|
    ensures '[' in Render(ps)[..k]
  {
    assert Render(ps)[..k][0] == '[';
  }

  lemma BlockWindow(n: nat, rest: string)
    requires n < |REDACTED| && |REDACTED[n..] + rest| >= MIN_ECHO
    ensures ']' in (REDACTED[n..] + rest)[..MIN_ECHO]
  {
    assert (REDACTED[n..] + rest)[..MIN_ECHO][9 - n] == ']';
  }

  lemma {:induction false} BlockEchoes(n: nat, rest: string, token: string)
    requires BracketFree(token) && n <= |REDACTED|
    ensures Echoes(REDACTED[n..] + rest, token) == Echoes(rest, token)
    decreases |REDACTED| - n
  {
    var text := REDACTED[n..] + rest;
    if n == |REDACTED| {
      assert text == rest;
    } else {
      if EchoHere(text, token) {
        WindowBracketFree(text, token);
        BlockWindow(n, rest);
      }
      assert text[1..] == REDACTED[n + 1..] + rest;
      BlockEchoes(n + 1, rest, token);
    }
  }

  ghost predicate HasCut(ps: seq<Piece>)
  {
    exists i :: 0 <= i < |ps| && ps[i].Cut?
  }

  ghost predicate CutsEcho(ps: seq<Piece>, token: string)
  {
    forall i | 0 <= i < |ps| && ps[i].Cut? :: Echo(ps[i].run, token)
  }

  /** Cutting token runs out of a text creates no echo anywhere, not even across the cuts, and removes at least one. */
  lemma {:induction false} CutsReduceEchoes(ps: seq<Piece>, token: string)
    requires BracketFree(token) && CutsEcho(ps, token)
    ensures Echoes(Render(ps), token) <= Echoes(Original(ps), token)
    ensures HasCut(ps) ==> Echoes(Render(ps), token) < Echoes(Original(ps), token)
  {
    if ps != [] {
      var rest := ps[1..];
      assert forall i | 0 <= i < |rest| :: rest[i] == ps[i + 1];
      CutsReduceEchoes(rest, token);
      if HasCut(ps) && ps[0].Kept? {
        var i :| 0 <= i < |ps| && ps[i].Cut?;
        assert rest[i - 1].Cut?;
      }
      match ps[0]
      case Kept(c) => KeptEchoes(c, rest, ps, token);
      case Cut(run) => CutEchoes(run, rest, ps, token);
    }
  }

  lemma KeptEchoes(c: char, rest: seq<Piece>, ps: seq<Piece>, token: string)
    requires BracketFree(token) && ps != [] && ps[0] == Kept(c) && ps[1..] == rest
    ensures Echoes(Render(ps), token) - Echoes(Render(rest), token) <= Echoes(Original(ps), token) - Echoes(Original(rest), token)
  {
    assert Render(ps)[1..] == Render(rest) && Original(ps)[1..] == Original(rest);
    if EchoHere(Render(ps), token) {
      WindowBracketFree(Render(ps), token);
      RenderedPrefix(ps, MIN_ECHO);
    }
  }

  lemma CutEchoes(run: string, rest: seq<Piece>, ps: seq<Piece>, token: string)
    requires BracketFree(token) && ps != [] && ps[0] == Cut(run) && ps[1..] == rest && Echo(run, token)
    ensures Echoes(Render(ps), token) == Echoes(Render(rest), token)
    ensures Echoes(Original(ps), token) > Echoes(Original(rest), token)
  {
    assert REDACTED[0..] == REDACTED;
    BlockEchoes(0, Render(rest), token);
    PrefixOccurs(run, MIN_ECHO, token);
    var o := Original(ps);
    assert o == run + Original(rest) && o[..MIN_ECHO] == run[..MIN_ECHO];
    assert o[1..] == run[1..] + Original(rest);
    SuffixEchoes(run[1..], Original(rest), token);
  }

  // ---------------------------------------------------------------- replacing a message by its scrub

  /** `text` with every occurrence of `m` cut up as scrubToken would. */
  ghost function ReplacePieces(text: string, m: string, token: string): seq<Piece>
    requires m != ""
    decreases |text|
  {
    if text == "" then []
    else if Starts(text, m) then Pieces(m, token) + ReplacePieces(text[|m|..], m, token)
    else [Kept(text[0])] + ReplacePieces(text[1..], m, token)
  }

  lemma {:induction false} PiecesAppend(ps: seq<Piece>, qs: seq<Piece>)
    ensures Render(ps + qs) == Render(ps) + Render(qs) && Original(ps + qs) == Original(ps) + Original(qs)
  {
    if ps == [] {
      assert ps + qs == qs;
    } else {
      assert (ps + qs)[1..] == ps[1..] + qs;
      PiecesAppend(ps[1..], qs);
    }
  }

  lemma {:induction false} ReplaceIsCutting(text: string, m: string, token: string)
    requires m != ""
    ensures var ps := ReplacePieces(text, m, token);
      && Render(ps) == ReplaceAll(text, m, Scrub(m, token)) && Original(ps) == text && CutsEcho(ps, token)
    decreases |text|
  {
    if text != "" {
      if Starts(text, m) {
        ReplaceIsCutting(text[|m|..], m, token);
        ScrubDecomposes(m, token);
        CutsAreEchoes(Pieces(m, token), token);
        PiecesAppend(Pieces(m, token), ReplacePieces(text[|m|..], m, token));
        assert text == m + text[|m|..];
      } else {
        ReplaceIsCutting(text[1..], m, token);
        PiecesAppend([Kept(text[0])], ReplacePieces(text[1..], m, token));
        assert [Kept(text[0])][1..] == [];
        assert text == [text[0]] + text[1..];
      }
    }
  }

  lemma {:induction false} UncutIsClean(ps: seq<Piece>)
    requires !HasCut(ps)
    ensures Render(ps) == Original(ps)
  {
    if ps != [] {
      assert ps[0].Kept?;
      assert forall i | 0 <= i < |ps[1..]| :: ps[1..][i] == ps[i + 1];
      UncutIsClean(ps[1..]);
    }
  }

  lemma ScrubCuts(m: string, token: string)
    requires Scrub(m, token) != m
    ensures m != "" && HasCut(Pieces(m, token))
  {
    ScrubDecomposes(m, token);
    if !HasCut(Pieces(m, token)) {
      UncutIsClean(Pieces(m, token));
    }
  }

  lemma CutInFront(ps: seq<Piece>, qs: seq<Piece>)
    requires HasCut(ps)
    ensures HasCut(ps + qs)
  {
    var i :| 0 <= i < |ps| && ps[i].Cut?;
    assert (ps + qs)[i].Cut?;
  }

  lemma CutBehind(ps: seq<Piece>, qs: seq<Piece>)
    requires HasCut(qs)
    ensures HasCut(ps + qs)
  {
    var i :| 0 <= i < |qs| && qs[i].Cut?;
    assert (ps + qs)[|ps| + i].Cut?;
  }

  lemma OccursInTail(text: string, m: string, at: nat)
    requires OccursAt(m, text, at) && at > 0 && text != ""
    ensures OccursAt(m, text[1..], at - 1)
  {
    assert text == [text[0]] + text[1..];
    OccursShifted(m, [text[0]], text[1..], at);
  }

  lemma {:induction false} ReplaceCuts(text: string, m: string, at: nat, token: string)
    requires OccursAt(m, text, at) && Scrub(m, token) != m && m != ""
    ensures HasCut(ReplacePieces(text, m, token))
    decreases |text|
  {
    if Starts(text, m) {
      ScrubCuts(m, token);
      CutInFront(Pieces(m, token), ReplacePieces(text[|m|..], m, token));
    } else {
      StartsIff(text, m, at);
      OccursInTail(text, m, at);
      ReplaceCuts(text[1..], m, at - 1, token);
      CutBehind([Kept(text[0])], ReplacePieces(text[1..], m, token));
    }
  }

  lemma StartsIff(text: string, m: string, at: nat)
    requires OccursAt(m, text, at) && !Starts(text, m)
    ensures at > 0
  {
  }

  // ---------------------------------------------------------------- redacted errors

  /** The regexp puts no token bytes where there were none; all it inserts is bracketed. */
  ghost predicate AddsNoEcho(quoted: string -> string, token: string)
  {
    forall text :: Echoes(quoted(text), token) <= Echoes(text, token)
  }

  /** An error's text shows the Hetzner messages of its tree. */
  ghost predicate ShowsMessages(f: Foreign, e: Err)
  {
    forall n | n in Nodes(e) && HcloudNode(n) :: Occurs(n.message, f.text(e))
  }

  /** What rebuild appends to the message so that a support request can name the call. */
  ghost function IdSuffix(e: Err): string
    requires HcloudNode(e)
  {
    match e
    case Api(_, _, Some(id), _) => if id != "" then " (correlation id " + id + ")" else ""
    case ActionFailure(_, _, Some(id), _) => " (action " + Decimal(id) + ")"
    case _ => ""
  }

  /**
   * The Hetzner error a wrap chain reaches is rebuilt with a message that has no
   * run of the token left in it, and is otherwise the original's, followed by the
   * id of its call and nothing else.
   */
  lemma RebuiltIsClean(e: Err, token: string, f: Foreign) returns (body: string)
    requires ChainHead(e).Some? && BracketFree(token) && AddsNoEcho(f.quoted, token)
    ensures var d := Detached(e, Some(token), f);
      HcloudNode(d) && d.code == ChainHead(e).value.code && d.message == body + IdSuffix(ChainHead(e).value)
    ensures Clean(body, token)
    ensures Clean(ChainHead(e).value.message, token) ==> body == f.quoted(ChainHead(e).value.message)
  {
    var m := ChainHead(e).value.message;
    body := f.quoted(Scrub(m, token));
    RebuiltText(ChainHead(e).value, token, f);
    QuotedStaysClean(m, token, f);
  }

  lemma QuotedStaysClean(m: string, token: string, f: Foreign)
    requires BracketFree(token) && AddsNoEcho(f.quoted, token)
    ensures Clean(f.quoted(Scrub(m, token)), token)
    ensures Clean(m, token) ==> f.quoted(Scrub(m, token)) == f.quoted(m)
  {
    ScrubClean(m, token);
    CleanIffNoEchoes(Scrub(m, token), token);
    CleanIffNoEchoes(f.quoted(Scrub(m, token)), token);
    if Clean(m, token) {
      CleanKept(m, token);
    }
  }

  lemma RebuiltText(e: Err, token: string, f: Foreign)
    requires HcloudNode(e)
    ensures Rebuild(e, Some(token), f).message == f.quoted(Scrub(e.message, token)) + IdSuffix(e)
  {
    var body := f.quoted(Scrub(e.message, token));
    assert body + "" == body;
    match e
    case Api(_, _, Some(id), _) => SuffixGroups(body, " (correlation id ", id);
    case ActionFailure(_, _, Some(id), _) => SuffixGroups(body, " (action ", Decimal(id));
    case _ =>
  }

  lemma SuffixGroups(body: string, kind: string, id: string)
    ensures body + kind + id + ")" == body + (kind + id + ")")
  {
    Regroup(body, kind + id, ")");
    Regroup(body, kind, id);
  }

  lemma {:induction false} ScrubbedText(nodes: seq<Err>, text: string, token: string)
    requires BracketFree(token)
    ensures Echoes(ScrubMessages(nodes, text, Some(token)), token) <= Echoes(text, token)
    ensures (forall n | n in nodes && HcloudNode(n) :: Clean(n.message, token)) ==> ScrubMessages(nodes, text, Some(token)) == text
    ensures nodes != [] && HcloudNode(nodes[0]) && !Clean(nodes[0].message, token) && Occurs(nodes[0].message, text)
      ==> Echoes(ScrubMessages(nodes, text, Some(token)), token) < Echoes(text, token)
  {
    if nodes != [] {
      var m := if HcloudNode(nodes[0]) then nodes[0].message else "";
      var text' := if Scrub(m, token) != m then ReplaceAll(text, m, Scrub(m, token)) else text;
      ScrubUnchangedIff(m, token);
      if Scrub(m, token) != m {
        ReplacedText(text, m, token);
      }
      ScrubbedText(nodes[1..], text', token);
      assert forall n | n in nodes[1..] :: n in nodes;
      assert nodes[0] in nodes;
    }
  }

  lemma ReplacedText(text: string, m: string, token: string)
    requires BracketFree(token) && Scrub(m, token) != m
    ensures Echoes(ReplaceAll(text, m, Scrub(m, token)), token) <= Echoes(text, token)
    ensures Occurs(m, text) ==> Echoes(ReplaceAll(text, m, Scrub(m, token)), token) < Echoes(text, token)
  {
    ScrubCuts(m, token);
    ReplaceIsCutting(text, m, token);
    CutsReduceEchoes(ReplacePieces(text, m, token), token);
    if Occurs(m, text) {
      var at :| OccursAt(m, text, at);
      ReplaceCuts(text, m, at, token);
    }
  }

  /** One message with an echo that the text shows is enough: the echoes of the text go down for good. */
  lemma {:induction false} UncleanMessageShrinks(nodes: seq<Err>, text: string, k: nat, token: string)
    requires BracketFree(token) && k < |nodes| && HcloudNode(nodes[k]) && !Clean(nodes[k].message, token)
    requires forall i | 0 <= i <= k && HcloudNode(nodes[i]) :: Occurs(nodes[i].message, text)
    requires forall i | 0 <= i < k && HcloudNode(nodes[i]) :: Clean(nodes[i].message, token)
    ensures Echoes(ScrubMessages(nodes, text, Some(token)), token) < Echoes(text, token)
  {
    ScrubbedText(nodes, text, token);
    if k > 0 {
      var m := if HcloudNode(nodes[0]) then nodes[0].message else "";
      ScrubUnchangedIff(m, token);
      if !HcloudNode(nodes[0]) {
        ShortKept("", token);
      }
      assert forall i | 0 <= i < |nodes[1..]| :: nodes[1..][i] == nodes[i + 1];
      UncleanMessageShrinks(nodes[1..], text, k - 1, token);
    }
  }

  lemma {:induction false} FirstUnclean(nodes: seq<Err>, n: nat, token: string) returns (k: nat)
    requires n < |nodes| && HcloudNode(nodes[n]) && !Clean(nodes[n].message, token)
    ensures k <= n && HcloudNode(nodes[k]) && !Clean(nodes[k].message, token)
    ensures forall i | 0 <= i < k && HcloudNode(nodes[i]) :: Clean(nodes[i].message, token)
  {
    if j: nat :| j < n && HcloudNode(nodes[j]) && !Clean(nodes[j].message, token) {
      k := FirstUnclean(nodes, j, token);
    } else {
      k := n;
    }
  }

  /** The text of a flattened error. */
  function FlatText(r: Err): string
  {
    match r
    case Plain(text) => text
    case Api(_, message, _, _) => message
    case _ => ""
  }

  ghost predicate HasUnclean(d: Err, token: string)
  {
    exists n :: n in Nodes(d) && HcloudNode(n) && !Clean(n.message, token)
  }

  /** What the final scrub makes of an error's text. */
  ghost function CleanText(d: Err, token: string, f: Foreign): string
  {
    f.quoted(ScrubMessages(Nodes(d), f.text(d), Some(token)))
  }

  lemma CleanTextShrinks(d: Err, token: string, f: Foreign)
    requires BracketFree(token) && AddsNoEcho(f.quoted, token) && ShowsMessages(f, d)
    ensures Echoes(CleanText(d, token, f), token) <= Echoes(f.text(d), token)
    ensures HasUnclean(d, token) ==> Echoes(CleanText(d, token, f), token) < Echoes(f.text(d), token)
  {
    var ns := Nodes(d);
    ScrubbedText(ns, f.text(d), token);
    if HasUnclean(d, token) {
      var n :| n in ns && HcloudNode(n) && !Clean(n.message, token);
      var i :| 0 <= i < |ns| && ns[i] == n;
      var k := FirstUnclean(ns, i, token);
      assert forall j | 0 <= j < |ns| :: ns[j] in ns;
      UncleanMessageShrinks(ns, f.text(d), k, token);
    }
  }

  /** A flattened error is one fresh node with the cleaned text; the other kind kept its text through the scrub. */
  lemma RedactedCases(e: Err, token: string, f: Foreign)
    ensures var d, r := Detached(e, Some(token), f), Redacted(e, Some(token), f);
      || (r == d && CleanText(d, token, f) == f.text(d))
      || (Nodes(r) == [r] && (r.Plain? || r.Api?) && FlatText(r) == CleanText(d, token, f))
  {
    var r := Redacted(e, Some(token), f);
    assert r.Plain? || r.Api? ==> Nodes(r) == [r];
  }

  /**
   * Whatever tree goes in, an error that comes back as a tree of its own has no
   * Hetzner message in it with a run of the token; any other comes back
   * flattened to one fresh error, whose text has no more echoes than before, and
   * fewer whenever some message had one.
   */
  lemma RedactedIsClean(e: Err, token: string, f: Foreign)
    requires BracketFree(token) && AddsNoEcho(f.quoted, token)
    requires ShowsMessages(f, Detached(e, Some(token), f))
    ensures var d, r := Detached(e, Some(token), f), Redacted(e, Some(token), f);
      || (r == d && !HasUnclean(r, token))
      || (&& Nodes(r) == [r] && (r.Plain? || r.Api?)
          && Echoes(FlatText(r), token) <= Echoes(f.text(d), token)
          && (HasUnclean(d, token) ==> Echoes(FlatText(r), token) < Echoes(f.text(d), token)))
  {
    RedactedCases(e, token, f);
    CleanTextShrinks(Detached(e, Some(token), f), token, f);
  }
}
