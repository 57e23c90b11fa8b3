/** The server's side of a file: its stored blocks and its active revision. */
module DriveServer {
  import opened Blocks
  import opened Outcomes

  /** Session-key encryption, where the nonce makes every ciphertext of a block possible, and
      the hash of the manifest. */
  datatype Crypto = Crypto(encrypt: (Bytes, nat) -> Bytes, decrypt: Bytes -> Option<Bytes>, hash: Bytes -> Bytes)

  ghost predicate Sound(c: Crypto) {
    forall d: Bytes, nonce: nat {:trigger c.encrypt(d, nonce)} :: c.decrypt(c.encrypt(d, nonce)) == Some(d)
  }

  lemma Deciphered(c: Crypto, d: Bytes, nonce: nat)
    requires Sound(c)
    ensures c.decrypt(c.encrypt(d, nonce)) == Some(d)
  {
  }

  datatype BlockToken = BlockToken(index: nat, token: nat)

  /** A committed revision: its blocks in order, their sizes and the signed manifest. */
  datatype Revision = Revision(blocks: seq<BlockToken>, sizes: seq<nat>, totalSize: nat, manifest: Bytes)

  datatype IoError = Closed | BadDescriptor | EndOfFile | OutOfRange(block: nat) | Failed | MissingBlock(index: nat)

  /** The block store and the active revision.  Any call may fail without an effect; faults
      counts those failures, and those of signing and encrypting before a commit. */
  class Server {
    var blobs: map<nat, Bytes>
    var nextToken: nat
    var active: Option<Revision>
    ghost var faults: nat

    ghost predicate Valid()
      reads `blobs, `nextToken
    {
      forall t | t in blobs :: t < nextToken
    }

    constructor ()
      ensures Valid() && blobs == map[] && active == None && faults == 0
    {
      blobs, nextToken, active, faults := map[], 0, None, 0;
    }

    method UploadBlock(cipher: Bytes) returns (token: Option<nat>)
      requires Valid()
      modifies this
      ensures Valid() && active == old(active)
      ensures token.None? ==> blobs == old(blobs) && faults == old(faults) + 1
      ensures token.Some? ==>
                token.value !in old(blobs) && blobs == old(blobs)[token.value := cipher] && faults == old(faults)
    {
      var fails: bool := *;
      if fails {
        faults := faults + 1;
        return None;
      }
      token := Some(nextToken);
      blobs := blobs[nextToken := cipher];
      nextToken := nextToken + 1;
    }

    /** Signing the manifest and encrypting the attributes. */
    method Seal() returns (ok: bool)
      modifies `faults
      ensures faults == if ok then old(faults) else old(faults) + 1
    {
      ok := *;
      if !ok { faults := faults + 1; }
    }

    method UpdateRevision(rev: Revision) returns (ok: bool)
      requires Valid()
      modifies this
      ensures Valid() && blobs == old(blobs)
      ensures ok ==> active == Some(rev) && faults == old(faults)
      ensures !ok ==> active == old(active) && faults == old(faults) + 1
    {
      ok := *;
      if ok { active := Some(rev); } else { faults := faults + 1; }
    }

    method GetBlock(token: nat) returns (cipher: Option<Bytes>)
      requires token in blobs
      modifies `faults
      ensures cipher.Some? ==> cipher.value == blobs[token] && faults == old(faults)
      ensures cipher.None? ==> faults == old(faults) + 1
    {
      var fails: bool := *;
      if fails {
        faults := faults + 1;
        return None;
      }
      cipher := Some(blobs[token]);
    }

    /** Requests of other goroutines may fail at any time. */
    method OtherFaults()
      modifies `faults
      ensures faults >= old(faults)
    {
      var fails: bool := *;
      if fails { faults := faults + 1; }
    }
  }
}
