/**
 The x-changed-by identity carried through gRPC metadata (contract/changelog/metadata.go).
 */
module ChangeMetadata {
  import opened Wrappers
  import opened Decimal

  type Headers = map<string, seq<string>>

  const CHANGED_BY := "x-changed-by"

  /** A gRPC metadata map; contexts share it by reference. */
  class Metadata {
    var headers: Headers

    constructor (headers: Headers)
      ensures this.headers == headers
    {
      this.headers := headers;
    }

    method Copy() returns (md: Metadata)
      ensures fresh(md) && md.headers == headers
    {
      md := new Metadata(headers);
    }

    method Set(key: string, value: string)
      modifies this
      ensures headers == old(headers)[key := [value]]
    {
      headers := headers[key := [value]];
    }
  }

  /** A context, by the metadata attached to it in each direction. */
  datatype Context = Context(outgoing: Metadata?, incoming: Metadata?)

  ghost function Outgoing(ctx: Context): Headers
    reads ctx.outgoing
  {
    if ctx.outgoing == null then map[] else ctx.outgoing.headers
  }

  /** The headers with the caller's id set. */
  function Stamp(h: Headers, userID: int): Headers {
    h[CHANGED_BY := [FormatInt(userID)]]
  }

  /** The id is merged into a copy: the given context and its metadata are left alone. */
  method SetChangedBy(ctx: Context, userID: int) returns (out: Context)
    ensures out.outgoing != null && fresh(out.outgoing) && out.incoming == ctx.incoming
    ensures Outgoing(out) == Stamp(Outgoing(ctx), userID)
    ensures Outgoing(out) == Outgoing(ctx)["x-changed-by" := [FormatInt(userID)]]
    ensures Outgoing(ctx) == old(Outgoing(ctx))
  {
    var md;
    if ctx.outgoing != null {
      md := ctx.outgoing.Copy();
    } else {
      md := new Metadata(map[]);
    }
    md.Set(CHANGED_BY, FormatInt(userID));
    return ctx.(outgoing := md);
  }

  /** The id carried by incoming headers; 0 when there is none that parses. */
  function Changer(h: Option<Headers>): int {
    if h.None? then 0
    else if CHANGED_BY !in h.value || h.value[CHANGED_BY] == [] then 0
    else match ParseInt(h.value[CHANGED_BY][0])
      case None => 0
      case Some(id) => id
  }

  method ExtractChangedBy(ctx: Context) returns (id: int)
    ensures id == Changer(if ctx.incoming == null then None else Some(ctx.incoming.headers))
    ensures ctx.incoming == null ==> id == 0
    ensures ctx.incoming != null && ("x-changed-by" !in ctx.incoming.headers || ctx.incoming.headers["x-changed-by"] == []) ==> id == 0
    ensures ctx.incoming != null && "x-changed-by" in ctx.incoming.headers && ctx.incoming.headers["x-changed-by"] != [] ==>
      var parsed := ParseInt(ctx.incoming.headers["x-changed-by"][0]);
      id == if parsed.Some? then parsed.value else 0
  {
    if ctx.incoming == null {
      return 0;
    }
    if CHANGED_BY !in ctx.incoming.headers {
      return 0;
    }
    var vals := ctx.incoming.headers[CHANGED_BY];
    if |vals| == 0 {
      return 0;
    }
    var parsed := ParseInt(vals[0]);
    if parsed.None? {
      return 0;
    }
    return parsed.value;
  }

  /** Every int64 id survives the trip; other keys are untouched. */
  lemma StampedIdArrives(h: Headers, userID: int)
    requires IsInt64(userID)
    ensures Changer(Some(Stamp(h, userID))) == userID
    ensures Stamp(h, userID) - {CHANGED_BY} == h - {CHANGED_BY}
  {
    PrintParse(userID);
  }

  function StampAll(h: Headers, ids: seq<int>): Headers {
    if ids == [] then h else Stamp(StampAll(h, ids[..|ids| - 1]), ids[|ids| - 1])
  }

  /** Stamping again replaces the id: only the last one travels, whatever came before. */
  lemma {:induction false} LastStampWins(h: Headers, ids: seq<int>)
    requires ids != [] && IsInt64(ids[|ids| - 1])
    ensures StampAll(h, ids) == Stamp(h, ids[|ids| - 1])
    ensures Changer(Some(StampAll(h, ids))) == ids[|ids| - 1]
  {
    StampsCollapse(h, ids);
    StampedIdArrives(h, ids[|ids| - 1]);
  }

  lemma {:induction false} StampsCollapse(h: Headers, ids: seq<int>)
    requires ids != []
    ensures StampAll(h, ids) == Stamp(h, ids[|ids| - 1])
  {
    var pre := ids[..|ids| - 1];
    if pre != [] {
      StampsCollapse(h, pre);
    }
  }

  /** A whole call: the handler stamps its context, gRPC delivers the outgoing headers, the service reads the id. */
  method CallCarriesId(ctx: Context, userID: int) returns (seen: int)
    requires IsInt64(userID)
    ensures seen == userID
    ensures Outgoing(ctx) == old(Outgoing(ctx))
  {
    var out := SetChangedBy(ctx, userID);
    StampedIdArrives(Outgoing(ctx), userID);
    seen := ExtractChangedBy(Context(null, out.outgoing));
  }
}
