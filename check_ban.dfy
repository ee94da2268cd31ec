/** The check-ban endpoint: the client asks whether its hashed identity is
    banned. The lookup is that of `checkIPBan` (an expired ban is deleted and
    reported as not banned), but the reply also carries the ban's expiry. */
module CheckBan {
  import opened Wrappers
  import opened Bans

  datatype BanBody = Malformed(message: string) | Parsed(ipHash: Option<string>)

  datatype BanRequest = Preflight | Post(body: BanBody)

  /** `{ banned: false }`, `{ banned: true, reason, expires_at }`, or the 500
      reply `{ banned: false, error }`. */
  datatype BanReply =
    | CorsOk
    | NotBanned
    | Banned(reason: string, expiresAt: Option<int>)
    | Failed(status: int, error: string)

  /** The check-ban handler on the table `table` at `now`: the reply and the
      table left behind. */
  function HandleCheckBan(table: map<string, BanEntry>, req: BanRequest, now: int): (r: (BanReply, map<string, BanEntry>))
    ensures r.0.Banned? <==>
              req.Post? && req.body.Parsed? && Truthy(req.body.ipHash)
              && req.body.ipHash.value in table && !Expired(table[req.body.ipHash.value], now)
    ensures r.0.Banned? ==> r.0 == Banned(ReasonOf(table[req.body.ipHash.value]), table[req.body.ipHash.value].expiresAt)
    ensures req.Preflight? ==> r == (CorsOk, table)
    ensures r.0.Failed? <==> req.Post? && req.body.Malformed?
    ensures req.Post? && req.body.Malformed? ==> r == (Failed(500, req.body.message), table)
    ensures req.Post? && req.body.Parsed? ==> r.0.NotBanned? || r.0.Banned?
    ensures req.Post? && req.body.Parsed? && !Truthy(req.body.ipHash) ==> r == (NotBanned, table)
    ensures r.1 == table || (req.Post? && req.body.Parsed? && req.body.ipHash.Some? && r.1 == table - {req.body.ipHash.value})
  {
    match req
    case Preflight => (CorsOk, table)
    case Post(Malformed(message)) => (Failed(500, message), table)
    case Post(Parsed(ipHash)) =>
      if !Truthy(ipHash) then (NotBanned, table)
      else
        var h := ipHash.value;
        match Find(table, h, now)
        case NoEntry => (NotBanned, table)
        case ExpiredEntry(_) => (NotBanned, table - {h})
        case ActiveEntry(e) => (Banned(ReasonOf(e), e.expiresAt), table)
  }

  /** The handler against the `banned_ips` table. */
  method CheckBanHandler(banTable: BanTable, req: BanRequest, now: int) returns (reply: BanReply)
    modifies banTable
    ensures (reply, banTable.entries) == HandleCheckBan(old(banTable.entries), req, now)
  {
    if req.Preflight? {
      return CorsOk;
    }
    if req.body.Malformed? {
      return Failed(500, req.body.message);
    }
    var ipHash := req.body.ipHash;
    if !Truthy(ipHash) {
      return NotBanned;
    }
    var h := ipHash.value;
    if h in banTable.entries {
      var data := banTable.entries[h];
      if data.expiresAt.Some? && data.expiresAt.value < now {
        banTable.entries := banTable.entries - {h};
        return NotBanned;
      }
      return Banned(ReasonOf(data), data.expiresAt);
    }
    return NotBanned;
  }

  // ---------------------------------------------------------------------
  // Properties

  /** The endpoint and the admission pipeline's `checkIPBan` agree: a hash is
      reported banned exactly when the lookup denies it, with the same
      reason, and both leave the same table. */
  lemma AgreesWithBanLookup(table: map<string, BanEntry>, h: string, now: int)
    ensures var (reply, after) := HandleCheckBan(table, Post(Parsed(Some(h))), now);
            var l := BanLookup(table, h, now);
            && (reply.Banned? <==> l.result.Denied?)
            && (reply.Banned? ==> reply.reason == l.result.reason)
            && after == l.table
  {
  }

  /** Asking twice at the same instant gives the same answer, and the second
      question changes nothing. */
  lemma {:induction false} AskingTwiceAgrees(table: map<string, BanEntry>, req: BanRequest, now: int)
    ensures var (first, after) := HandleCheckBan(table, req, now);
            HandleCheckBan(after, req, now) == (first, after)
  {
    if req.Post? && req.body.Parsed? && Truthy(req.body.ipHash) {
      var h := req.body.ipHash.value;
      LookupIdempotent(table, h, now);
      AgreesWithBanLookup(table, h, now);
      AgreesWithBanLookup(BanLookup(table, h, now).table, h, now);
    }
  }
}
