/** From a captured tree to the receiver: capture, validation, encoding and
    decoding taken together. */
module Offering {
  import opened Common
  import opened Paths
  import opened Tree
  import opened TreeWalk
  import opened Capture
  import Manifest

  function Entries(ids: seq<Manifest.Id>, es: seq<Snapshot>): (entries: seq<Manifest.Entry>)
    requires |ids| == |es|
    ensures |entries| == |es|
    ensures forall i | 0 <= i < |es| :: entries[i] == Manifest.Entry(ids[i], es[i].ToDescriptor())
  {
    seq(|es|, (i: nat) requires i < |es| => Manifest.Entry(ids[i], es[i].ToDescriptor()))
  }

  /** File sizes and times are unsigned 64-bit numbers. */
  predicate Measured(es: seq<Snapshot>) {
    forall e | e in es :: e.size <= U64_MAX && e.created <= U64_MAX && e.accessed <= U64_MAX && e.written <= U64_MAX
  }

  predicate DistinctIds(ids: seq<Manifest.Id>) {
    forall i, j | 0 <= i < j < |ids| :: ids[i] != ids[j]
  }

  /** What the receiver reads of entry `e`: its name, and its node's own size and
      times. */
  predicate Reports(w: World, e: Snapshot, d: Descriptor) {
    && e.identity in w.nodes
    && var node := w.nodes[e.identity];
    && d.name == e.name && d.size == node.size && d.attributes == TransferableAttributes(node.attributes)
    && d.created == Some(node.created) && d.accessed == Some(node.accessed) && d.written == Some(node.written)
  }

  lemma DescriptorReports(w: World, e: Snapshot)
    requires Describes(w, e)
    ensures Reports(w, e, e.ToDescriptor())
  {
  }

  /** Whatever forest capture accepts is encoded within the limit and read back
      exactly, as long as a whole millisecond of the offer is left; the receiver
      then has, entry by entry, what the nodes of the file system reported. */
  lemma CapturedTreeArrives(w: World, lower: LowerCase, roots: seq<Root>, id: Manifest.Id, ids: seq<Manifest.Id>, ttl: nat)
    requires Capturable(w, lower, roots) && Measured(Forest(w, roots))
    requires |ids| == |Forest(w, roots)| && DistinctIds(ids) && ttl <= U64_MAX
    ensures var offer := Manifest.Offer(id, ttl, Entries(ids, Forest(w, roots)));
      && |Manifest.OfferBytes(offer)| < Manifest.MAX_MANIFEST_BYTES
      && (Manifest.Decode(lower, Manifest.OfferBytes(offer)) == Some(offer) <==> ttl > 0)
      && forall i | 0 <= i < |offer.entries| :: Reports(w, Forest(w, roots)[i], offer.entries[i].descriptor)
  {
    var es := Forest(w, roots);
    var entries := Entries(ids, es);
    var offer := Manifest.Offer(id, ttl, entries);
    hide Capturable, Forest, TreeAccepted, Manifest.OfferBytes, Manifest.Decode, Reports, Describes;
    ForestDescribes(w, roots);
    forall i | 0 <= i < |es| ensures Reports(w, es[i], entries[i].descriptor) {
      assert es[i] in es;
      DescriptorReports(w, es[i]);
    }
    assert Manifest.Descriptors(entries) == Described(es);
    forall i | 0 <= i < |entries| ensures Manifest.Typed(entries[i].descriptor) {
      assert es[i] in es;
    }
    SameTree(w, lower, roots);
    Manifest.SizeBound(lower, offer);
    Manifest.RoundTrip(lower, offer);
  }

  lemma SameTree(w: World, lower: LowerCase, roots: seq<Root>)
    requires Capturable(w, lower, roots)
    ensures TreeAccepted(lower, Described(Forest(w, roots)))
  {
  }
}
