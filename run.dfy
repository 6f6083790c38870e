/** One run of the script (main.py:14-84) with its I/O turned into parameters and results:
    the decoded status comes in, the presence record is reconciled in place, and the
    webhook request that would be sent comes out. */
module Run {
  import opened Wrappers
  import opened Presence
  import opened Reconciliation
  import opened Composition
  import opened Webhook

  /** The parts of the status API's answer the script reads: the names in
      `players.list` (`None` when there is no `list`), `motd.clean` and `players.online`. */
  datatype ServerStatus = ServerStatus(playerList: Option<seq<PlayerName>>, motdLines: seq<string>, onlineCount: int)

  datatype Request = Request(verb: HttpMethod, url: string, body: Message)

  /** `content` is the text of the record file and `decoded` what `json.loads` makes of it;
      the returned table is the record the script writes back. */
  method RunOnce(status: ServerStatus, content: string, decoded: Statuses, now: Timestamp, clock: string,
                 webhookUrl: string, messageId: Option<string>,
                 digest: PlayerName -> HexDigest, hourMinute: Timestamp -> string)
    returns (request: Request, table: StatusTable)
    requires decoded.Valid()
    ensures fresh(table) && table.Valid()
    ensures table.Value() == Reconciled(Load(content, decoded), status.playerList, now)
    ensures Target(request.verb, request.url) == Endpoint(webhookUrl, messageId)
    ensures request.body == Compose(status.motdLines, status.onlineCount, clock, table.Value(), digest, hourMinute)
  {
    table := new StatusTable(Load(content, decoded));
    Reconcile(table, status.playerList, now);
    var webhookMethod, url := Route(webhookUrl, messageId);
    var message := Compose(status.motdLines, status.onlineCount, clock, table.Value(), digest, hourMinute);
    request := Request(webhookMethod, url, message);
  }
}
