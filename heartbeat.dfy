/**
 The heartbeat wire format: `site#ip:port#millis#`, built by the report task
 and read back by ingestion.
 */
module Heartbeat {
  import opened Servers

  /** The site tag of every heartbeat sent between members of the local cluster. */
  const LOCALHOST_SITE: string := "cluster_status"

  /** The field delimiter of a heartbeat payload. */
  const FIELD_SEP: char := '#'

  /** What a payload says: the sender's site, ip, port and its own send time. */
  datatype Beat = Beat(site: string, ip: string, port: int, lastRefTime: int)

  /** The report task's payload: site, the sender's `ip:port`, the send time, each followed by '#'. */
  function BuildPayload(site: string, serverAddr: string, millis: int): string
  {
    site + [FIELD_SEP] + serverAddr + [FIELD_SEP] + IntToString(millis) + [FIELD_SEP]
  }

  /** Ingestion's reading of a payload: field 0 is the site, field 1 is split into ip
      and an int port, field 2 is a long timestamp; a missing field or a bad number fails,
      in the order the fields are read. Fields past the third are ignored. */
  function ParsePayload(payload: string): Result<Beat>
  {
    var params := Split(payload, FIELD_SEP);
    if |params| < 2 then Err(MissingField)
    else match ParseAddress(params[1])
      case Err(e) => Err(e)
      case Ok((ip, port)) =>
        if |params| < 3 then Err(MissingField)
        else match ParseLong(params[2])
          case None => Err(BadNumber)
          case Some(millis) => Ok(Beat(params[0], ip, port, millis))
  }

  /** The text a well-formed sender needs: no delimiter in the site, no delimiter or
      separator in the ip, an int port and a long timestamp. */
  predicate WellFormed(site: string, ip: string, port: int, millis: int)
  {
    FIELD_SEP !in site && FIELD_SEP !in ip && SEP !in ip && IsInt(port) && IsLong(millis)
  }

  /** Reading a payload the report task built gives back the same site, ip, port and time. */
  lemma PayloadRoundTrip(site: string, ip: string, port: int, millis: int)
    requires WellFormed(site, ip, port, millis)
    ensures ParsePayload(BuildPayload(site, Address(ip, port), millis)) == Ok(Beat(site, ip, port, millis))
  {
    var addr := Address(ip, port);
    var stamp := IntToString(millis);
    var payload := BuildPayload(site, addr, millis);
    assert FIELD_SEP !in addr;
    assert payload == site + [FIELD_SEP] + (addr + [FIELD_SEP] + (stamp + [FIELD_SEP] + ""));
    PiecesConcat(site, FIELD_SEP, addr + [FIELD_SEP] + (stamp + [FIELD_SEP] + ""));
    PiecesConcat(addr, FIELD_SEP, stamp + [FIELD_SEP] + "");
    PiecesConcat(stamp, FIELD_SEP, "");
    assert Pieces(payload, FIELD_SEP) == [site, addr, stamp, ""];
    assert payload[|site|] == FIELD_SEP;
    assert [site, addr, stamp, ""][..3] == [site, addr, stamp];
    assert StripTrailingEmpty([site, addr, stamp, ""]) == StripTrailingEmpty([site, addr, stamp]);
    assert Split(payload, FIELD_SEP) == [site, addr, stamp];
    AddressRoundTrip(ip, port);
    ParseIntegerRoundTrip(millis, LONG_MIN, LONG_MAX);
  }

  /** A payload with no timestamp field, `site#addr`, is refused whatever the address. */
  lemma {:induction false} MissingTimestampRejected(site: string, addr: string)
    requires FIELD_SEP !in site && FIELD_SEP !in addr
    ensures ParsePayload(site + [FIELD_SEP] + addr).Err?
  {
    var payload := site + [FIELD_SEP] + addr;
    PiecesConcat(site, FIELD_SEP, addr);
    PiecesNoSeparator(addr, FIELD_SEP);
    assert Pieces(payload, FIELD_SEP) == [site, addr];
    assert payload[|site|] == FIELD_SEP;
    var params := Split(payload, FIELD_SEP);
    assert params == StripTrailingEmpty([site, addr]);
    assert |params| <= 2 by {
      if addr == "" {
        assert [site, addr][..1] == [site];
        assert params == StripTrailingEmpty([site]);
        if site == "" {
          assert params == StripTrailingEmpty([]);
        }
      }
    }
  }

  /** The truncated payload "cluster_status#bad" is refused. */
  lemma TruncatedPayloadRejected()
    ensures ParsePayload("cluster_status#bad").Err?
  {
    assert "cluster_status#bad" == LOCALHOST_SITE + [FIELD_SEP] + "bad";
    MissingTimestampRejected(LOCALHOST_SITE, "bad");
  }
}
