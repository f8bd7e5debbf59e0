/** The process-wide callback table: one listener per event kind, shared by
    every session, filled by the seven `on*` registration functions. */
module Callbacks {
  import opened Wrappers

  /** The keys of the table (`CALLBACK_KEY`). */
  datatype CallbackKey =
    | OnQR
    | OnConnecting
    | OnConnected
    | OnDisconnected
    | OnMessageReceived
    | OnMessageUpdated
    | OnPairingCode

  /** A listener function; only its identity matters here. */
  datatype Listener = Listener(tag: nat)

  /** The seven public registration functions, one constructor each. */
  datatype Registration =
    | MessageReceived   // onMessageReceived
    | QRUpdated         // onQRUpdated
    | Connected         // onConnected
    | Disconnected      // onDisconnected
    | Connecting        // onConnecting
    | MessageUpdate     // onMessageUpdate
    | PairingCode       // onPairingCode

  type Table = map<CallbackKey, Listener>

  /** The key each registration function writes. `onPairingCode` writes the
      message-updated key, as the code does. */
  function KeyOf(r: Registration): (k: CallbackKey)
    ensures k != OnPairingCode
    ensures k == OnMessageUpdated <==> r == MessageUpdate || r == PairingCode
  {
    match r
    case MessageReceived => OnMessageReceived
    case QRUpdated => OnQR
    case Connected => OnConnected
    case Disconnected => OnDisconnected
    case Connecting => OnConnecting
    case MessageUpdate => OnMessageUpdated
    case PairingCode => OnMessageUpdated
  }

  /** The table after a registration (`callback.set(key, listener)`). */
  function Registered(table: Table, r: Registration, l: Listener): Table
  {
    table[KeyOf(r) := l]
  }

  // Dispatch is `Get(table, key)`: with no listener for the key it is a
  // silent no-op.

  /** A registration replaces the listener of its own key and no other. */
  lemma RegistrationReplacesOnlyItsKey(table: Table, r: Registration, l: Listener, key: CallbackKey)
    ensures Get(Registered(table, r, l), key)
         == if key == KeyOf(r) then Some(l) else Get(table, key)
  {
  }

  /** Last writer wins: after a second registration the first listener is
      gone from the table. */
  lemma LastRegistrationWins(table: Table, r: Registration, first: Listener, second: Listener)
    ensures Registered(Registered(table, r, first), r, second) == Registered(table, r, second)
  {
  }

  /** `onPairingCode` and `onMessageUpdate` overwrite each other, and nothing
      ever writes the pairing-code key, so the pairing-code dispatch can find
      no listener. The other registrations write pairwise distinct keys. */
  lemma PairingCodeKeyNeverWritten(r1: Registration, r2: Registration)
    ensures KeyOf(PairingCode) == KeyOf(MessageUpdate) == OnMessageUpdated
    ensures KeyOf(r1) != OnPairingCode
    ensures KeyOf(r1) == KeyOf(r2) <==> r1 == r2 || {r1, r2} == {PairingCode, MessageUpdate}
  {
  }
}
