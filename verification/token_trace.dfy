/** The component as a state machine: a sequence of timestamped calls on its
    public operations, each one answered and the blacklist threaded from one
    call to the next. Only `invalidateToken` changes the state, and it only
    adds, so the blacklist grows monotonically over any run. */
module TokenTrace {
  import opened Wrappers
  import opened ClaimSet
  import opened Jjwt
  import opened JwtTokenUtil

  /** A call on one of the component's public operations. */
  datatype Call =
    | Generate(username: string, email: string)
    | GetUsername(token: Token)
    | GetEmail(token: Token)
    | GetExpiration(token: Token)
    | Validate(token: Token, username: string)
    | Invalidate(token: Token)
    | IsBlacklisted(token: Token)

  /** What a call returns or throws. */
  datatype Reply =
    | Issued(token: Token)
    | Text(text: Option<string>)
    | Date(date: Option<Millis>)
    | Verdict(verdict: bool)
    | Done
    | Thrown(error: JwtError)

  /** A call made when the clock read `now`. */
  datatype Event = Event(call: Call, now: Millis)

  function TextReply(r: Result<Option<string>, JwtError>): Reply
  {
    match r
    case Success(v) => Text(v)
    case Failure(e) => Thrown(e)
  }

  /** One call: the state after it and its reply. */
  function Step(u: TokenUtil, e: Event): (TokenUtil, Reply)
  {
    match e.call
    case Generate(name, email) => (u, Issued(GenerateToken(u, name, email, e.now)))
    case GetUsername(t) => (u, TextReply(GetUsernameFromToken(u, t, e.now)))
    case GetEmail(t) => (u, TextReply(GetEmailFromToken(u, t, e.now)))
    case GetExpiration(t) =>
      (u, match GetExpirationDateFromToken(u, t, e.now)
          case Success(d) => Date(d)
          case Failure(err) => Thrown(err))
    case Validate(t, name) =>
      (u, match ValidateToken(u, t, name, e.now)
          case Success(b) => Verdict(b)
          case Failure(err) => Thrown(err))
    case Invalidate(t) => (InvalidateToken(u, t), Done)
    case IsBlacklisted(t) => (u, Verdict(IsTokenBlacklisted(u, t)))
  }

  /** The tokens a run of events invalidates. */
  function Invalidated(events: seq<Event>): set<Token>
  {
    if events == [] then {}
    else (if events[0].call.Invalidate? then {events[0].call.token} else {}) + Invalidated(events[1..])
  }

  /** The state after a run of events: the blacklist is exactly the initial
      one plus every token the run invalidated; nothing is ever removed. */
  function Run(u: TokenUtil, events: seq<Event>): (u': TokenUtil)
    ensures u'.jwt == u.jwt
    ensures u'.tokenBlacklist == u.tokenBlacklist + Invalidated(events)
    decreases |events|
  {
    if events == [] then u else Run(Step(u, events[0]).0, events[1..])
  }

  /** The reply to the `j`-th event of a run. */
  function ReplyAt(u: TokenUtil, events: seq<Event>, j: nat): Reply
    requires j < |events|
  {
    Step(Run(u, events[..j]), events[j]).1
  }

  /** Every call other than `invalidateToken` leaves the state as it was. */
  lemma ReadOnlyCalls(u: TokenUtil, e: Event)
    requires !e.call.Invalidate?
    ensures Step(u, e).0 == u
  {
  }

  /** A token invalidated by some event of a run is among those the run
      invalidated. */
  lemma {:induction false} InvalidatedContains(events: seq<Event>, i: nat)
    requires i < |events| && events[i].call.Invalidate?
    ensures events[i].call.token in Invalidated(events)
    decreases i
  {
    if i > 0 {
      InvalidatedContains(events[1..], i - 1);
    }
  }

  /** A token among those a run invalidated was invalidated by some event of
      the run. */
  lemma {:induction false} InvalidatedWitness(events: seq<Event>, t: Token)
    requires t in Invalidated(events)
    ensures exists i :: 0 <= i < |events| && events[i].call == Invalidate(t)
    decreases |events|
  {
    if events[0].call != Invalidate(t) {
      InvalidatedWitness(events[1..], t);
      var i :| 0 <= i < |events[1..]| && events[1..][i].call == Invalidate(t);
      assert events[i + 1].call == Invalidate(t);
    }
  }

  /** From a fresh start, `isTokenBlacklisted` answers `true` after a run
      exactly when some call of the run invalidated that very token string. */
  lemma BlacklistedIffInvalidated(jwt: Codec, events: seq<Event>, t: Token)
    ensures IsTokenBlacklisted(Run(Init(jwt), events), t)
        <==> exists i :: 0 <= i < |events| && events[i].call == Invalidate(t)
  {
    if IsTokenBlacklisted(Run(Init(jwt), events), t) {
      InvalidatedWitness(events, t);
    }
    if i :| 0 <= i < |events| && events[i].call == Invalidate(t) {
      InvalidatedContains(events, i);
    }
  }

  /** The blacklist only grows along a run: the state after a prefix is
      contained in the state after any longer prefix. */
  lemma {:induction false} BlacklistGrows(u: TokenUtil, events: seq<Event>, i: nat, j: nat)
    requires i <= j <= |events|
    ensures Run(u, events[..i]).tokenBlacklist <= Run(u, events[..j]).tokenBlacklist
  {
    InvalidatedPrefix(events, i, j);
  }

  lemma {:induction false} InvalidatedPrefix(events: seq<Event>, i: nat, j: nat)
    requires i <= j <= |events|
    ensures Invalidated(events[..i]) <= Invalidated(events[..j])
    decreases i
  {
    if i > 0 {
      assert events[..i][1..] == events[1..][..i - 1];
      assert events[..j][1..] == events[1..][..j - 1];
      InvalidatedPrefix(events[1..], i - 1, j - 1);
    }
  }

  /** Read-your-writes: once a run has invalidated a token, a later
      validation of it never answers `true`, and a later blacklist query
      answers `true`. */
  lemma InvalidatedStaysRejected(u: TokenUtil, events: seq<Event>, i: nat, j: nat)
    requires i < j < |events|
    requires events[i].call.Invalidate?
    requires !events[j].call.Generate? && events[j].call.token == events[i].call.token
    ensures events[j].call.Validate? ==> ReplyAt(u, events, j) != Verdict(true)
    ensures events[j].call.IsBlacklisted? ==> ReplyAt(u, events, j) == Verdict(true)
  {
    assert events[..j][i] == events[i];
    InvalidatedContains(events[..j], i);
  }
}
