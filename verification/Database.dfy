/** The `peer` table behind the in-memory peer map: `guid` is its key, `id` has a unique index. */
module PeerTable {
  import opened Wrappers
  import opened Net

  /** The columns the registry uses; `info` holds nothing but the last registered ip. */
  datatype Row = Row(id: string, uuid: Bytes, pk: Bytes, info: Ip)

  /** Rows by guid. */
  type Table = map<Bytes, Row>

  datatype DbError = Unavailable | UniqueViolation

  ghost predicate UniqueIds(t: Table) {
    forall g, h | g in t && h in t && t[g].id == t[h].id :: g == h
  }

  /** The guid of the row with this id. */
  ghost function Find(t: Table, id: string): (r: Option<Bytes>)
    ensures r.Some? ==> r.value in t && t[r.value].id == id
    ensures r.None? ==> forall g | g in t :: t[g].id != id
  {
    if g :| g in t && t[g].id == id then Some(g) else None
  }

  /** Whether an insert goes through: the call succeeds and breaks neither key nor index. */
  ghost predicate InsertAccepted(t: Table, id: string, guid: Bytes, ok: bool) {
    ok && guid !in t && Find(t, id).None?
  }

  /** Whether an update goes through; one that matches no row succeeds as well. */
  ghost predicate UpdateAccepted(t: Table, guid: Bytes, id: string, ok: bool) {
    ok && (guid in t ==> Find(t, id).None? || Find(t, id).value == guid)
  }

  /** An update writes every column but `uuid`. */
  function Updated(t: Table, guid: Bytes, id: string, pk: Bytes, info: Ip): Table {
    if guid in t then t[guid := t[guid].(id := id, pk := pk, info := info)] else t
  }

  class Database {
    var rows: Table

    constructor ()
      ensures rows == map[]
    {
      rows := map[];
    }

    /** `ok` tells whether the call reaches the database. */
    method GetPeer(id: string, ok: bool) returns (r: Result<Option<(Bytes, Row)>, DbError>)
      requires UniqueIds(rows)
      ensures r.Ok? <==> ok
      ensures r.Ok? ==> match Find(rows, id)
                        case None => r.value.None?
                        case Some(g) => r.value == Some((g, rows[g]))
    {
      if !ok {
        return Err(Unavailable);
      }
      if g :| g in rows && rows[g].id == id {
        return Ok(Some((g, rows[g])));
      }
      return Ok(None);
    }

    method InsertPeer(id: string, uuid: Bytes, pk: Bytes, info: Ip, guid: Bytes, ok: bool)
      returns (r: Result<Bytes, DbError>)
      requires UniqueIds(rows)
      modifies this
      ensures UniqueIds(rows)
      ensures r.Ok? <==> InsertAccepted(old(rows), id, guid, ok)
      ensures rows == if r.Ok? then old(rows)[guid := Row(id, uuid, pk, info)] else old(rows)
      ensures r.Ok? ==> r.value == guid
    {
      if !ok {
        return Err(Unavailable);
      }
      if guid in rows || exists g | g in rows :: rows[g].id == id {
        return Err(UniqueViolation);
      }
      rows := rows[guid := Row(id, uuid, pk, info)];
      return Ok(guid);
    }

    method UpdatePk(guid: Bytes, id: string, pk: Bytes, info: Ip, ok: bool)
      returns (r: Result<(), DbError>)
      requires UniqueIds(rows)
      modifies this
      ensures UniqueIds(rows)
      ensures r.Ok? <==> UpdateAccepted(old(rows), guid, id, ok)
      ensures rows == if r.Ok? then Updated(old(rows), guid, id, pk, info) else old(rows)
    {
      if !ok {
        return Err(Unavailable);
      }
      if guid in rows {
        if exists g | g in rows :: g != guid && rows[g].id == id {
          return Err(UniqueViolation);
        }
        rows := rows[guid := rows[guid].(id := id, pk := pk, info := info)];
      }
      return Ok(());
    }
  }
}
