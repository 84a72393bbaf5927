/** Replies of a server, the client's return codes, and how replies are turned into values. */
module Reply {
  import opened Words

  const RC_OBJ_NOT_EXIST := 3
  const RC_PART_SUCCESS := 1
  const RC_SUCCESS := 0
  const RC_REPLY_ERR := -2
  const RC_RQST_ERR := -3
  const RC_NO_RESOURCE := -4

  lemma ReturnCodes()
    ensures RC_OBJ_NOT_EXIST == 3 && RC_PART_SUCCESS == 1 && RC_SUCCESS == 0
    ensures RC_REPLY_ERR == -2 && RC_RQST_ERR == -3 && RC_NO_RESOURCE == -4
  {
  }

  /** The status "OK". */
  const OK: Bytes := [0x4F, 0x4B]

  datatype RedisReply =
    | Integer(integer: int)
    | String(str: Bytes)
    | Status(str: Bytes)
    | Error(str: Bytes)
    | Nil
    | Array(elements: seq<RedisReply>)

  /** A string result: strings and statuses as they are, nil as the empty string. The code is
      RC_SUCCESS exactly for those three. */
  function FetchString(reply: RedisReply): (int, Bytes) {
    match reply
    case String(s) => (RC_SUCCESS, s)
    case Status(s) => (RC_SUCCESS, s)
    case Nil => (RC_SUCCESS, [])
    case _ => (RC_REPLY_ERR, [])
  }

  function FetchInteger(reply: RedisReply): (int, int) {
    match reply
    case Integer(n) => (RC_SUCCESS, n)
    case Nil => (RC_OBJ_NOT_EXIST, 0)
    case _ => (RC_REPLY_ERR, 0)
  }

  /** Replies that are taken for strings, and the string each is taken for. */
  predicate IsStringLike(reply: RedisReply) {
    reply.String? || reply.Status? || reply.Nil?
  }

  function Text(reply: RedisReply): Bytes {
    if reply.String? || reply.Status? then reply.str else []
  }

  lemma FetchStringReads(reply: RedisReply)
    ensures FetchString(reply) == if IsStringLike(reply) then (0, Text(reply)) else (-2, [])
  {
  }

  /** The code of a command that answers with a status: anything but OK is an error. */
  function StatusCode(reply: RedisReply): int {
    var (code, str) := FetchString(reply);
    if code == RC_SUCCESS && str != OK then RC_REPLY_ERR else code
  }

  lemma StatusCodeReads(reply: RedisReply)
    ensures StatusCode(reply) == if (reply.String? || reply.Status?) && reply.str == [0x4F, 0x4B] then 0 else -2
  {
  }

  lemma FetchIntegerReads(reply: RedisReply)
    ensures reply.Integer? ==> FetchInteger(reply) == (0, reply.integer)
    ensures reply.Nil? ==> FetchInteger(reply).0 == 3
    ensures !reply.Integer? && !reply.Nil? ==> FetchInteger(reply).0 == -2
  {
  }
}
