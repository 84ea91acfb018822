// The history of learned addresses kept in user space (src/nl/hcf.cpp).  The table is keyed by the whole address;
// the database and the sockets are not modelled.
module HistoryTable {
  import opened Bits
  import opened HopCount
  import opened Firewall

  class HcfListener {
    var table: map<Word, Info>

    constructor ()
      ensures table == map[]
    {
      table := map[];
    }

    // on_message_received: insert or ignore.
    method OnMessageReceived(sourceIp: Word, ttl: Byte, hc: Byte)
      modifies this
      ensures table.Keys == old(table).Keys + {sourceIp}
      ensures forall ip | ip in old(table) :: table[ip] == old(table)[ip]
      ensures sourceIp !in old(table) ==> table[sourceIp] == Info(ttl, hc)
    {
      if sourceIp !in table {
        table := table[sourceIp := Info(ttl, hc)];
      }
    }

    // set_ip_history: one entry of the message for each row; the query leaves the order of the rows open.
    method SetIpHistory() returns (message: seq<Entry>)
      ensures ListsStore(message, table) && |message| == |table|
    {
      hide ListsStore;
      message := [];
      var rows := table;
      NoRows(table - rows.Keys);
      while rows.Keys != {}
        invariant rows.Keys <= table.Keys && forall ip | ip in rows :: rows[ip] == table[ip]
        invariant |message| + |rows| == |table|
        invariant ListsStore(message, table - rows.Keys)
        decreases |rows|
      {
        var ip :| ip in rows;
        RowSent(message, table, rows, ip);
        message := message + [Entry(ip, rows[ip].ttl, rows[ip].hc)];
        rows := rows - {ip};
      }
      assert table - rows.Keys == table;
    }
  }

  lemma NoRows(store: map<Word, Info>)
    requires store == map[]
    ensures ListsStore([], store)
  {}

  lemma RowSent(message: seq<Entry>, table: map<Word, Info>, rows: map<Word, Info>, ip: Word)
    requires rows.Keys <= table.Keys && (forall a | a in rows :: rows[a] == table[a]) && ip in rows
    requires ListsStore(message, table - rows.Keys)
    ensures ListsStore(message + [Entry(ip, rows[ip].ttl, rows[ip].hc)], table - (rows - {ip}).Keys)
    ensures |rows - {ip}| == |rows| - 1
  {
    hide ListsStore;
    var rest := rows - {ip};
    OneMoreRow(message, table - rows.Keys, ip, rows[ip]);
    assert rows.Keys == rest.Keys + {ip};
    assert |rest.Keys| == |rest| && |rows.Keys| == |rows|;
    assert table - rest.Keys == (table - rows.Keys)[ip := table[ip]];
  }

  lemma OneMoreRow(rows: seq<Entry>, store: map<Word, Info>, ip: Word, info: Info)
    requires ListsStore(rows, store) && ip !in store
    ensures ListsStore(rows + [Entry(ip, info.ttl, info.hc)], store[ip := info])
  {
    var more, store' := rows + [Entry(ip, info.ttl, info.hc)], store[ip := info];
    forall a | a in store' ensures exists i :: 0 <= i < |more| && more[i].ip == a {
      if a == ip {
        assert more[|rows|].ip == a;
      } else {
        var i :| 0 <= i < |rows| && rows[i].ip == a;
        assert more[i].ip == a;
      }
    }
  }
}
