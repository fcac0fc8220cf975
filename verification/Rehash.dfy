/**
 Re-hashing the streams and merging the ones that fall together (`rehash_streams` and its
 helpers in core/tasks.py). Tables are maps from id to row; the unique constraint on
 (channel, stream) makes the link table a map from that pair to the link's order.
 */
module Rehash {
  import opened ByteStrings

  type Hash = string

  /** A stream that was never hashed has none. */
  datatype Stream = Stream(hash: Option<Hash>, updatedAt: int)

  type Streams = map<nat, Stream>

  /** (channel, stream) to order */
  type Links = map<(nat, nat), nat>

  // ----- which of two streams stays

  /** The orders a stream has in the channels it is linked to. */
  function Orders(links: Links, s: nat): set<nat> {
    set p | p in links && p.1 == s :: links[p]
  }

  predicate IsLeast(r: Option<nat>, orders: set<nat>) {
    match r
    case None => orders == {}
    case Some(v) => v in orders && forall x :: x in orders ==> v <= x
  }

  lemma {:induction false} LeastExists(orders: set<nat>)
    ensures exists r :: IsLeast(r, orders)
  {
    if orders == {} {
      assert IsLeast(None, orders);
    } else {
      var x :| x in orders;
      LeastExists(orders - {x});
      var r :| IsLeast(r, orders - {x});
      var v := if r.Some? && r.value < x then r.value else x;
      forall y | y in orders ensures v <= y {
        assert y == x || y in orders - {x};
      }
      assert IsLeast(Some(v), orders);
    }
  }

  /** `_get_best_channel_order` */
  ghost function BestOrder(links: Links, s: nat): (r: Option<nat>)
    ensures IsLeast(r, Orders(links, s))
  {
    LeastExists(Orders(links, s));
    var r :| IsLeast(r, Orders(links, s));
    r
  }

  /** Better order first and none last, then the newer row, then the lower id. */
  predicate Beats(orderA: Option<nat>, a: Stream, idA: nat, orderB: Option<nat>, b: Stream, idB: nat) {
    if orderA != orderB then orderB.None? || (orderA.Some? && orderA.value < orderB.value)
    else if a.updatedAt != b.updatedAt then a.updatedAt > b.updatedAt
    else idA < idB
  }

  /** `a` stays, `rowA` and `rowB` being the two rows as they are in memory. */
  ghost predicate Preferred(links: Links, a: nat, rowA: Stream, b: nat, rowB: Stream) {
    Beats(BestOrder(links, a), rowA, a, BestOrder(links, b), rowB, b)
  }

  /** The row with a channel order over the one without, and the lower order over the higher ... */
  lemma BetterOrderStays(links: Links, a: nat, rowA: Stream, b: nat, rowB: Stream)
    requires exists p :: p in links && p.1 == a
    requires forall q :: q in links && q.1 == b ==> exists p :: p in links && p.1 == a && links[p] < links[q]
    ensures Preferred(links, a, rowA, b, rowB) && !Preferred(links, b, rowB, a, rowA)
  {
    var p :| p in links && p.1 == a;
    assert links[p] in Orders(links, a);
    if BestOrder(links, b).Some? {
      var q :| q in links && q.1 == b && links[q] == BestOrder(links, b).value;
      var better :| better in links && better.1 == a && links[better] < links[q];
      assert links[better] in Orders(links, a);
    }
  }

  /** ... and on equal orders the newer row over the older one, the lower id if neither is. */
  lemma NewerStays(links: Links, a: nat, rowA: Stream, b: nat, rowB: Stream)
    requires BestOrder(links, a) == BestOrder(links, b)
    ensures rowA.updatedAt > rowB.updatedAt ==> Preferred(links, a, rowA, b, rowB) && !Preferred(links, b, rowB, a, rowA)
    ensures rowA.updatedAt == rowB.updatedAt ==> (Preferred(links, a, rowA, b, rowB) <==> a < b)
  {
  }

  // ----- moving the links of one stream to another

  /** The link table once the source's links in these channels have been dealt with. */
  function Moved(links: Links, source: nat, target: nat, channels: set<nat>): Links {
    map p: (nat, nat) | p in links.Keys + (set q | q in links && q.1 == source :: (q.0, target))
                     && !(p.1 == source && p.0 in channels)
                     && (p in links || p.0 in channels)
      :: if p.1 == target && p.0 in channels && (p.0, source) in links
            && (p !in links || links[(p.0, source)] < links[p])
         then links[(p.0, source)] else links[p]
  }

  function ChannelsOf(links: Links, s: nat): set<nat> {
    set p | p in links && p.1 == s :: p.0
  }

  function Merged(links: Links, source: nat, target: nat): Links {
    Moved(links, source, target, ChannelsOf(links, source))
  }

  function Get(links: Links, c: nat, s: nat): Option<nat> {
    if (c, s) in links then Some(links[(c, s)]) else None
  }

  /** The better of two orders. */
  function Better(a: Option<nat>, b: Option<nat>): Option<nat> {
    if a.None? then b else if b.None? then a else if b.value < a.value then b else a
  }

  /** What a merge does to each pair: the source keeps nothing, the target has the better of the two orders. */
  lemma MergedLinks(links: Links, source: nat, target: nat, c: nat, s: nat)
    ensures Get(Merged(links, source, target), c, s)
         == if s == source then None
            else if s == target then Better(Get(links, c, target), Get(links, c, source))
            else Get(links, c, s)
  {
    var channels := ChannelsOf(links, source);
    if (c, source) in links {
      assert (c, source).0 in channels;
      if s == target {
        assert ((c, source).0, target) in (set q | q in links && q.1 == source :: (q.0, target));
      }
    }
  }

  // ----- one row of the loop

  /** The tables and what the loop carries from row to row. */
  datatype Work = Work(
    streams: Streams, links: Links, hashKeys: map<Hash, nat>, deleted: set<nat>, processed: nat, merged: nat)

  /** `obj.save(update_fields=['stream_hash'])`, which raises DatabaseError when the row is gone. */
  function SetHash(w: Work, id: nat, h: Hash): Option<Work> {
    if id !in w.streams then None
    else Some(w.(streams := w.streams[id := w.streams[id].(hash := Some(h))], hashKeys := w.hashKeys[h := id],
                 processed := w.processed + 1))
  }

  /** Merge `lose` into `keep`, delete it, and let `keep` have the hash: saved only where `row` lacks it. */
  function Merge(w: Work, keep: nat, row: Stream, lose: nat, h: Hash): Option<Work> {
    var left := w.streams - {lose};
    if keep !in left && row.hash != Some(h) then None
    else Some(w.(streams := if keep in left then left[keep := left[keep].(hash := Some(h))] else left,
                 links := Merged(w.links, lose, keep), hashKeys := w.hashKeys[h := keep],
                 deleted := w.deleted + {lose}, processed := w.processed + 1, merged := w.merged + 1))
  }

  /** A row `a` of the table met by the row `b` of the batch. */
  ghost function MergePair(w: Work, a: nat, b: nat, rowB: Stream, h: Hash): Option<Work>
    requires a in w.streams
  {
    if Preferred(w.links, a, w.streams[a], b, rowB) then Merge(w, a, w.streams[a], b, h) else Merge(w, b, rowB, a, h)
  }

  /** A row not `id` that has the hash already. */
  predicate Clashes(streams: Streams, id: nat, h: Hash, other: nat) {
    other in streams && other != id && streams[other].hash == Some(h)
  }

  /**
   What the visit of row `id`, fetched as `row`, comes to. The row may be gone by then; None is the
   DatabaseError that ends the task and rolls the batch back.
   */
  ghost predicate RowDone(w: Work, id: nat, row: Stream, h: Hash, r: Option<Work>) {
    if h in w.hashKeys then
      var existing := w.hashKeys[h];
      if existing in w.deleted then r == SetHash(w, id, h)
      else if existing !in w.streams then r == SetHash(w.(deleted := w.deleted + {existing}), id, h)
      else r == MergePair(w, existing, id, row, h)
    else if exists other :: Clashes(w.streams, id, h, other) then
      exists other :: Clashes(w.streams, id, h, other) && r == MergePair(w, other, id, row, h)
    else r == SetHash(w, id, h)
  }

  class Db {
    var streams: Streams
    var links: Links

    constructor (streams: Streams, links: Links)
      ensures this.streams == streams && this.links == links
    {
      this.streams, this.links := streams, links;
    }

    method GetBestChannelOrder(s: nat) returns (r: Option<nat>)
      ensures r == BestOrder(links, s)
    {
      r := None;
      var todo := Orders(links, s);
      while todo != {}
        invariant todo <= Orders(links, s)
        invariant IsLeast(r, Orders(links, s) - todo)
        decreases todo
      {
        ghost var seen := Orders(links, s) - todo;
        var x :| x in todo;
        todo := todo - {x};
        assert Orders(links, s) - todo == seen + {x};
        if r.None? || x < r.value {
          r := Some(x);
        }
      }
      assert Orders(links, s) - todo == Orders(links, s);
    }

    method DetermineStreamToKeep(a: nat, rowA: Stream, b: nat, rowB: Stream) returns (keepsA: bool)
      ensures keepsA <==> Preferred(links, a, rowA, b, rowB)
    {
      var orderA := GetBestChannelOrder(a);
      var orderB := GetBestChannelOrder(b);
      if orderA.Some? && orderB.None? {
        return true;
      }
      if orderB.Some? && orderA.None? {
        return false;
      }
      if orderA.Some? && orderB.Some? {
        if orderA.value < orderB.value {
          return true;
        } else if orderB.value < orderA.value {
          return false;
        }
      }
      if rowA.updatedAt > rowB.updatedAt {
        return true;
      } else if rowB.updatedAt > rowA.updatedAt {
        return false;
      }
      return a < b;
    }

    method MergeStreamRelationships(source: nat, target: nat)
      modifies this`links
      ensures links == Merged(old(links), source, target)
    {
      ghost var before := links;
      var todo := ChannelsOf(links, source);
      ghost var done: set<nat> := {};
      assert links == Moved(before, source, target, done);
      while todo != {}
        invariant done + todo == ChannelsOf(before, source) && done !! todo
        invariant links == Moved(before, source, target, done)
        decreases todo
      {
        var c :| c in todo;
        MoveOne(before, source, target, done, c);
        if (c, target) in links {
          if links[(c, source)] < links[(c, target)] {
            links := links[(c, target) := links[(c, source)]];
          }
          links := links - {(c, source)};
        } else {
          links := (links - {(c, source)})[(c, target) := links[(c, source)]];
        }
        todo, done := todo - {c}, done + {c};
      }
      assert done == ChannelsOf(before, source);
    }

    /** One row of the loop in `rehash_streams`. */
    method RehashRow(id: nat, row: Stream, h: Hash, w: Work) returns (r: Option<Work>)
      requires w.streams == streams && w.links == links
      modifies this
      ensures RowDone(w, id, row, h, r)
      ensures r.Some? ==> r.value.streams == streams && r.value.links == links
    {
      var existing: Option<nat> := None;
      var gone := w.deleted;
      if h in w.hashKeys {
        if w.hashKeys[h] in w.deleted {
        } else if w.hashKeys[h] !in streams {
          gone := gone + {w.hashKeys[h]};
        } else {
          existing := Some(w.hashKeys[h]);
        }
      } else if exists other :: other in streams.Keys && Clashes(streams, id, h, other) {
        var other :| other in streams.Keys && Clashes(streams, id, h, other);
        existing := Some(other);
      }
      if existing.None? {
        if id !in streams {
          return None;
        }
        streams := streams[id := streams[id].(hash := Some(h))];
        r := Some(Work(streams, links, w.hashKeys[h := id], gone, w.processed + 1, w.merged));
        return;
      }
      var other: nat := existing.value;
      var keepsOther := DetermineStreamToKeep(other, streams[other], id, row);
      var keep, kept, lose := if keepsOther then other else id, if keepsOther then streams[other] else row,
                              if keepsOther then id else other;
      MergeStreamRelationships(lose, keep);
      gone := gone + {lose};
      streams := streams - {lose};
      if kept.hash != Some(h) && keep !in streams {
        r := None;
      } else {
        if keep in streams && streams[keep].hash != Some(h) {
          streams := streams[keep := streams[keep].(hash := Some(h))];
        }
        r := Some(Work(streams, links, w.hashKeys[h := keep], gone, w.processed + 1, w.merged + 1));
        ghost var left := w.streams - {lose};
        assert keep in left && left[keep].hash == Some(h) ==> left == left[keep := left[keep].(hash := Some(h))];
      }
      assert r == MergePair(w, other, id, row, h);
    }
  }

  /** One more channel: what the loop body in `_merge_stream_relationships` does. */
  lemma MoveOne(links: Links, source: nat, target: nat, done: set<nat>, c: nat)
    requires (c, source) in links && c !in done
    ensures var now := Moved(links, source, target, done);
            var next := Moved(links, source, target, done + {c});
            && (c, source) in now && now[(c, source)] == links[(c, source)]
            && ((c, target) in now <==> (c, target) in links)
            && next == if (c, target) in now then
                         (if now[(c, source)] < now[(c, target)] then now[(c, target) := now[(c, source)]] else now) - {(c, source)}
                       else (now - {(c, source)})[(c, target) := now[(c, source)]]
  {
    var now, next := Moved(links, source, target, done), Moved(links, source, target, done + {c});
    if source != target {
      assert (c, target) in next by {
        assert ((c, source).0, target) in (set q | q in links && q.1 == source :: (q.0, target));
      }
    }
    assert forall p :: p in next && p.0 != c ==> p in now && next[p] == now[p];
    assert forall p :: p in now && p.0 != c ==> p in next;
  }
}
