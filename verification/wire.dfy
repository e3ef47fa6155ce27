/**
 * Values exchanged between the datastore server and its clients: the decoded
 * JSON messages a client sends, the replies and broadcasts the server writes
 * back, and the exceptions a message handler can raise.
 *
 * JSON encoding is not modelled: a message is a record whose optional parts
 * say whether the corresponding key was present.
 */
module Wire {

  datatype Option<+T> = None | Some(value: T)

  /** A JSON object key that may be missing, present with `null`, or present with a value. */
  datatype Json<+T> = Absent | Null | Present(value: T)

  type CollabId = string
  type TransactionId = string

  /** A client transaction; its patch payload is opaque to the server and left out. */
  datatype Transaction = Transaction(id: TransactionId, serial: int)

  /** The keys of a message's `content` object that the server itself inspects. */
  datatype Content = Content(transactions: Option<seq<Transaction>>, serial: Option<int>)

  /** A decoded client message: `msgType`, `msgId` and `content`. */
  datatype Message = Message(msgType: Option<string>, msgId: Option<string>, content: Json<Content>)

  /** The permission an action needs. */
  datatype Action = Read | Write

  datatype Reason =
    | WriteDenied                                    // "Cannot write transactions to current collaboration."
    | ReadDenied(collaborationId: Option<CollabId>)  // "Cannot access collaboration: <id>"

  /** What the `messages` constructors build; their JSON layout is left out. */
  datatype Reply =
    | ErrorReply(parent: Option<string>, reason: Reason)
    | TransactionsAck(parent: Option<string>, transactions: seq<Transaction>, serials: map<TransactionId, int>)
    | TransactionBroadcast(transactions: seq<Transaction>, serials: map<TransactionId, int>)
    | StableStateBroadcast(stable: int)
    | HistoryReply(parent: Option<string>, transactions: seq<Transaction>, state: string)
    | TransactionReply(parent: Option<string>, transactions: seq<Transaction>)
    | SerialReply(parent: Option<string>, transactions: seq<Transaction>)
    | PermissionsReply(parent: Option<string>, read: bool, write: bool)

  /** One websocket frame written to a client: a JSON text message or a close request. */
  datatype Frame = Text(reply: Reply) | Close(code: int)

  /** The Python exceptions the modelled code can raise. */
  datatype Error =
    | KeyError                           // set.remove / dict.pop / del of a missing key
    | MissingTransaction(counter: int)   // ValueError: a gap in a connection's transaction serials
    | EmptyMin                           // ValueError: min() over no history-initialised handler
    | EmptyMax                           // ValueError: max() over an empty serial map
    | AttributeError                     // `content` present but null where the code calls .pop on it
    | AssertionFailed                    // a failed `assert` statement

  datatype Status = Ok | Raised(error: Error)

  /** What the (unmodelled) datastore database answers for one message. */
  datatype DbReplies = DbReplies(
    isDuplicate: seq<bool>,                 // has_transactions: one flag per transaction id
    serials: map<TransactionId, int>,       // add_transactions: the central serial of each id
    historyTransactions: seq<Transaction>,  // history(checkpoint).transactions
    historyState: string,                   // history(checkpoint).state
    byId: seq<Transaction>,                 // get_transactions(ids)
    bySerial: seq<Transaction>              // get_serials(serials)
  )

  /** One entry of the collaborations listing: `{id, friendlyName}`. */
  datatype Entry = Entry(id: CollabId, friendlyName: string)

  /** An IOLoop timeout handle: opaque token and the loop time it fires at. */
  datatype Timer = Timer(token: nat, deadline: int)
}
