/** Values shared by the exchange orchestrator and the network transport. */
module Types {

  /** A content identifier, as the bytes of `cid.buffer`. */
  type Cid = seq<bv8>

  /** A peer identity; the model only compares peer identities. */
  type PeerId = string

  /** An immutable payload addressed by its CID. */
  datatype Block = Block(cid: Cid, data: seq<bv8>)

  /** One entry of a message's want-list delta; only the decision engine reads these. */
  datatype Entry = Entry(cid: Cid, priority: int, cancel: bool)

  /** An exchange message: a want-list delta and the blocks it delivers, in the order
      the message's block map yields them. */
  datatype Message = Message(wantlist: seq<Entry>, blocks: seq<Block>)

  /** A JavaScript `Error`, reduced to its message. */
  datatype Error = Error(message: string)

  datatype Option<+T> = None | Some(value: T)

  datatype Result<+T> = Success(value: T) | Failure(error: Error)
}
