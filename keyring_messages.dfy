/**
 * The twelve request messages of packages/background/src/keyring-v2/messages.ts:
 * the structural check `validateBasic` each one runs before it is sent to the
 * privileged background, its `type()` tag and its `route()`.
 *
 * A field that TypeScript would treat as falsy is the empty string (or, for a
 * public key, an absent or empty byte array). `bip39.mnemonicToEntropy` is a
 * foreign library call: it is a parameter of the check, telling for each
 * phrase whether it decodes or which error it throws.
 */
module KeyRingMessages {
  import opened Options

  newtype Byte = x: int | 0 <= x < 256

  /** `BIP44HDPath`: carried by the key-creating messages, never checked by them. */
  datatype BIP44HDPath = BIP44HDPath(account: int, change: int, addressIndex: int)

  /**
   * One value per message class. `optionalPassword` is the optional
   * `password?` parameter of the key-creating messages; `password` is the
   * required one of the others.
   */
  datatype Message =
    | GetKeyRingStatusMsg
    | SelectKeyRingMsg(vaultId: string)
    | FinalizeMnemonicKeyCoinTypeMsg(id: string, chainId: string, coinType: int)
    | NewMnemonicKeyMsg(mnemonic: string, bip44HDPath: BIP44HDPath, name: string, optionalPassword: Option<string>)
    | NewLedgerKeyMsg(pubKey: Option<seq<Byte>>, app: string, bip44HDPath: BIP44HDPath, name: string, optionalPassword: Option<string>)
    | AppendLedgerKeyAppMsg(vaultId: string, pubKey: Option<seq<Byte>>, app: string)
    | LockKeyRingMsg
    | UnlockKeyRingMsg(password: string)
    | ChangeKeyRingNameMsg(vaultId: string, name: string)
    | DeleteKeyRingMsg(vaultId: string, password: string)
    | ShowSensitiveKeyRingDataMsg(vaultId: string, password: string)
    | ChangeUserPasswordMsg(prevUserPassword: string, newUserPassword: string)

  /** The message classes themselves, the owners of the static `type()`. */
  datatype MessageClass =
    | GetKeyRingStatus | SelectKeyRing | FinalizeMnemonicKeyCoinType | NewMnemonicKey
    | NewLedgerKey | AppendLedgerKeyApp | LockKeyRing | UnlockKeyRing
    | ChangeKeyRingName | DeleteKeyRing | ShowSensitiveKeyRingData | ChangeUserPassword

  /** What `bip39.mnemonicToEntropy` does with a phrase: return entropy, or throw an error with a message. */
  datatype MnemonicCheck = Entropy | Thrown(message: string)

  /** What `validateBasic()` does: return, or throw an error with a message. */
  datatype Outcome = Pass | Fail(message: string)

  /** The one error of `mnemonicToEntropy` that `NewMnemonicKeyMsg` lets through. */
  const ChecksumError: string := "Invalid mnemonic checksum"

  /** `ROUTE` of keyring-v2/constants.ts, the background handler every message is delivered to. */
  const KeyRingRoute: string := "keyring-v2"

  // ---------------------------------------------------------------- type and route

  /** The static `type()` of each class. */
  function StaticType(c: MessageClass): string
  {
    match c
    case GetKeyRingStatus => "get-keyring-status"
    case SelectKeyRing => "select-keyring"
    case FinalizeMnemonicKeyCoinType => "finalize-mnemonic-key-coin-type"
    case NewMnemonicKey => "new-mnemonic-key"
    case NewLedgerKey => "new-ledger-key"
    case AppendLedgerKeyApp => "append-ledger-key-app"
    case LockKeyRing => "lock-keyring"
    case UnlockKeyRing => "unlock-keyring"
    case ChangeKeyRingName => "change-keyring-name"
    case DeleteKeyRing => "v2/delete-keyring"
    case ShowSensitiveKeyRingData => "show-sensitive-keyring-data"
    case ChangeUserPassword => "ChangeUserPasswordMsg"
  }

  /** The class a message is an instance of. */
  function ClassOf(m: Message): MessageClass
  {
    match m
    case GetKeyRingStatusMsg => GetKeyRingStatus
    case SelectKeyRingMsg(_) => SelectKeyRing
    case FinalizeMnemonicKeyCoinTypeMsg(_, _, _) => FinalizeMnemonicKeyCoinType
    case NewMnemonicKeyMsg(_, _, _, _) => NewMnemonicKey
    case NewLedgerKeyMsg(_, _, _, _, _) => NewLedgerKey
    case AppendLedgerKeyAppMsg(_, _, _) => AppendLedgerKeyApp
    case LockKeyRingMsg => LockKeyRing
    case UnlockKeyRingMsg(_) => UnlockKeyRing
    case ChangeKeyRingNameMsg(_, _) => ChangeKeyRingName
    case DeleteKeyRingMsg(_, _) => DeleteKeyRing
    case ShowSensitiveKeyRingDataMsg(_, _) => ShowSensitiveKeyRingData
    case ChangeUserPasswordMsg(_, _) => ChangeUserPassword
  }

  /** The instance `type()`: each class answers with its own static `type()`. */
  function Type(m: Message): (t: string)
    ensures t == StaticType(ClassOf(m))
  {
    match m
    case GetKeyRingStatusMsg => StaticType(GetKeyRingStatus)
    case SelectKeyRingMsg(_) => StaticType(SelectKeyRing)
    case FinalizeMnemonicKeyCoinTypeMsg(_, _, _) => StaticType(FinalizeMnemonicKeyCoinType)
    case NewMnemonicKeyMsg(_, _, _, _) => StaticType(NewMnemonicKey)
    case NewLedgerKeyMsg(_, _, _, _, _) => StaticType(NewLedgerKey)
    case AppendLedgerKeyAppMsg(_, _, _) => StaticType(AppendLedgerKeyApp)
    case LockKeyRingMsg => StaticType(LockKeyRing)
    case UnlockKeyRingMsg(_) => StaticType(UnlockKeyRing)
    case ChangeKeyRingNameMsg(_, _) => StaticType(ChangeKeyRingName)
    case DeleteKeyRingMsg(_, _) => StaticType(DeleteKeyRing)
    case ShowSensitiveKeyRingDataMsg(_, _) => StaticType(ShowSensitiveKeyRingData)
    case ChangeUserPasswordMsg(_, _) => StaticType(ChangeUserPassword)
  }

  /** `route()`: every message goes to the keyring handler. */
  function Route(m: Message): (r: string)
    ensures r == KeyRingRoute
  {
    KeyRingRoute
  }

  /** The twelve static tags are pairwise distinct. */
  lemma StaticTypesAreDistinct(c1: MessageClass, c2: MessageClass)
    ensures StaticType(c1) == StaticType(c2) ==> c1 == c2
  {
  }

  /**
   * The router, which dispatches on `route()` and `type()`, tells the classes
   * apart: two messages have the same route and type exactly when they are
   * instances of the same class.
   */
  lemma RouteAndTypeIdentifyClass(m1: Message, m2: Message)
    ensures Route(m1) == Route(m2) && Type(m1) == Type(m2) <==> ClassOf(m1) == ClassOf(m2)
  {
    StaticTypesAreDistinct(ClassOf(m1), ClassOf(m2));
  }

  // ---------------------------------------------------------------- validateBasic

  /** A required field: whether it is set, and the error thrown when it is not. */
  datatype Field = Field(isSet: bool, error: string)

  /** A `Uint8Array` that `!pubKey || pubKey.length === 0` does not reject. */
  predicate HasBytes(pubKey: Option<seq<Byte>>) {
    pubKey.Some? && |pubKey.value| > 0
  }

  /** The fields each class requires, in the order its check tests them, with their errors. */
  function RequiredFields(m: Message): seq<Field>
  {
    match m
    case GetKeyRingStatusMsg => []
    case SelectKeyRingMsg(vaultId) => [Field(vaultId != "", "Vault id not set")]
    case FinalizeMnemonicKeyCoinTypeMsg(id, chainId, _) =>
      [Field(id != "", "id not set"), Field(chainId != "", "chainId not set")]
    case NewMnemonicKeyMsg(mnemonic, _, name, _) =>
      [Field(mnemonic != "", "mnemonic not set"), Field(name != "", "name not set")]
    case NewLedgerKeyMsg(pubKey, app, _, name, _) =>
      [Field(HasBytes(pubKey), "pub key not set"), Field(app != "", "app not set"), Field(name != "", "name not set")]
    case AppendLedgerKeyAppMsg(vaultId, pubKey, app) =>
      [Field(HasBytes(pubKey), "pub key not set"), Field(app != "", "app not set"), Field(vaultId != "", "vault id not set")]
    case LockKeyRingMsg => []
    case UnlockKeyRingMsg(password) => [Field(password != "", "password not set")]
    case ChangeKeyRingNameMsg(vaultId, name) =>
      [Field(vaultId != "", "vaultId not set"), Field(name != "", "name not set")]
    case DeleteKeyRingMsg(vaultId, password) =>
      [Field(vaultId != "", "vaultId not set"), Field(password != "", "password not set")]
    case ShowSensitiveKeyRingDataMsg(vaultId, password) =>
      [Field(vaultId != "", "vaultId not set"), Field(password != "", "password not set")]
    case ChangeUserPasswordMsg(prevUserPassword, newUserPassword) =>
      [Field(prevUserPassword != "", "prevUserPassword not set"), Field(newUserPassword != "", "newUserPassword not set")]
  }

  /** The first field of `fields` that is not set, if any. */
  function FirstUnset(fields: seq<Field>): Option<Field>
  {
    if fields == [] then None
    else if !fields[0].isSet then Some(fields[0])
    else FirstUnset(fields[1..])
  }

  /** Every field of `fields` is set. */
  predicate AllSet(fields: seq<Field>) {
    forall i :: 0 <= i < |fields| ==> fields[i].isSet
  }

  /**
   * The error `mnemonicToEntropy` throws for the phrase of a new mnemonic key,
   * unless it is the checksum error; nothing for every other message.
   */
  function RethrownParseError(m: Message, mnemonicToEntropy: string -> MnemonicCheck): Option<string>
  {
    if m.NewMnemonicKeyMsg? && mnemonicToEntropy(m.mnemonic).Thrown? && mnemonicToEntropy(m.mnemonic).message != ChecksumError
    then Some(mnemonicToEntropy(m.mnemonic).message)
    else None
  }

  /** Throw `error` unless `isSet`, otherwise go on with `next`. */
  function Require(isSet: bool, error: string, next: Outcome): Outcome
  {
    if isSet then next else Fail(error)
  }

  /**
   * `validateBasic()` of every class: its guards in source order. It passes
   * exactly when every required field is set and the phrase of a new
   * mnemonic key decodes or fails only its checksum; a failure reports the
   * first field that is not set, and only when all are set the decoding error.
   */
  function ValidateBasic(m: Message, mnemonicToEntropy: string -> MnemonicCheck): Outcome
  {
    match m
    case GetKeyRingStatusMsg => Pass
    case SelectKeyRingMsg(vaultId) => Require(vaultId != "", "Vault id not set", Pass)
    case FinalizeMnemonicKeyCoinTypeMsg(id, chainId, _) =>
      Require(id != "", "id not set",
      Require(chainId != "", "chainId not set", Pass))
    case NewMnemonicKeyMsg(mnemonic, _, name, _) =>
      Require(mnemonic != "", "mnemonic not set",
      Require(name != "", "name not set",
      match mnemonicToEntropy(mnemonic)
      case Entropy => Pass
      case Thrown(message) => if message != ChecksumError then Fail(message) else Pass))
    case NewLedgerKeyMsg(pubKey, app, _, name, _) =>
      Require(HasBytes(pubKey), "pub key not set",
      Require(app != "", "app not set",
      Require(name != "", "name not set", Pass)))
    case AppendLedgerKeyAppMsg(vaultId, pubKey, app) =>
      Require(HasBytes(pubKey), "pub key not set",
      Require(app != "", "app not set",
      Require(vaultId != "", "vault id not set", Pass)))
    case LockKeyRingMsg => Pass
    case UnlockKeyRingMsg(password) => Require(password != "", "password not set", Pass)
    case ChangeKeyRingNameMsg(vaultId, name) =>
      Require(vaultId != "", "vaultId not set",
      Require(name != "", "name not set", Pass))
    case DeleteKeyRingMsg(vaultId, password) =>
      Require(vaultId != "", "vaultId not set",
      Require(password != "", "password not set", Pass))
    case ShowSensitiveKeyRingDataMsg(vaultId, password) =>
      Require(vaultId != "", "vaultId not set",
      Require(password != "", "password not set", Pass))
    case ChangeUserPasswordMsg(prevUserPassword, newUserPassword) =>
      Require(prevUserPassword != "", "prevUserPassword not set",
      Require(newUserPassword != "", "newUserPassword not set", Pass))
  }

  /** No field of `fields` is unset exactly when all of them are set. */
  lemma {:induction false} FirstUnsetSpec(fields: seq<Field>)
    ensures FirstUnset(fields).None? <==> AllSet(fields)
    ensures FirstUnset(fields).Some? ==> FirstUnset(fields).value in fields && !FirstUnset(fields).value.isSet
  {
    if fields != [] {
      FirstUnsetSpec(fields[1..]);
      assert forall i :: 1 <= i < |fields| ==> fields[i] == fields[1..][i - 1];
    }
  }

  /** One field: the first unset one, spelled out. */
  lemma OneField(f: seq<Field>)
    requires |f| == 1
    ensures FirstUnset(f) == if !f[0].isSet then Some(f[0]) else None
  {
    assert f[1..] == [];
  }

  /** Two fields: the first unset one, spelled out. */
  lemma TwoFields(f: seq<Field>)
    requires |f| == 2
    ensures FirstUnset(f) == if !f[0].isSet then Some(f[0]) else if !f[1].isSet then Some(f[1]) else None
  {
    OneField(f[1..]);
  }

  /** Three fields: the first unset one, spelled out. */
  lemma ThreeFields(f: seq<Field>)
    requires |f| == 3
    ensures FirstUnset(f) ==
              if !f[0].isSet then Some(f[0]) else if !f[1].isSet then Some(f[1]) else if !f[2].isSet then Some(f[2]) else None
  {
    TwoFields(f[1..]);
  }

  /**
   * `validateBasic()` throws the error of the first required field that is
   * not set; when every field is set it throws the decoding error of a new
   * mnemonic key other than the checksum error, and otherwise it passes.
   */
  lemma ValidateBasicSpec(m: Message, mnemonicToEntropy: string -> MnemonicCheck)
    ensures ValidateBasic(m, mnemonicToEntropy) ==
              if FirstUnset(RequiredFields(m)).Some? then Fail(FirstUnset(RequiredFields(m)).value.error)
              else if RethrownParseError(m, mnemonicToEntropy).Some? then Fail(RethrownParseError(m, mnemonicToEntropy).value)
              else Pass
  {
    var f := RequiredFields(m);
    if |f| == 2 {
      TwoFields(f);
    } else if |f| == 3 {
      ThreeFields(f);
    }
  }

  /**
   * `validateBasic()` passes exactly when every required field is set and
   * the phrase of a new mnemonic key decodes or fails only its checksum.
   */
  lemma ValidateBasicPasses(m: Message, mnemonicToEntropy: string -> MnemonicCheck)
    ensures ValidateBasic(m, mnemonicToEntropy).Pass? <==>
              AllSet(RequiredFields(m)) && RethrownParseError(m, mnemonicToEntropy).None?
  {
    ValidateBasicSpec(m, mnemonicToEntropy);
    FirstUnsetSpec(RequiredFields(m));
  }

  // ---------------------------------------------------------------- per class

  /** `GetKeyRingStatusMsg` and `LockKeyRingMsg` carry nothing and never fail. */
  lemma NoFieldMessagesPass(mnemonicToEntropy: string -> MnemonicCheck)
    ensures ValidateBasic(GetKeyRingStatusMsg, mnemonicToEntropy) == Pass
    ensures ValidateBasic(LockKeyRingMsg, mnemonicToEntropy) == Pass
  {
  }

  /** `SelectKeyRingMsg` fails exactly when its vault id is empty, and `UnlockKeyRingMsg` exactly when its password is. */
  lemma OneFieldMessages(vaultId: string, password: string, mnemonicToEntropy: string -> MnemonicCheck)
    ensures ValidateBasic(SelectKeyRingMsg(vaultId), mnemonicToEntropy).Fail? <==> vaultId == ""
    ensures ValidateBasic(UnlockKeyRingMsg(password), mnemonicToEntropy).Fail? <==> password == ""
  {
  }

  /**
   * `FinalizeMnemonicKeyCoinTypeMsg` fails exactly when `id` or `chainId` is
   * empty, reports `id` first, and does not look at the coin type.
   */
  lemma FinalizeCoinTypeChecks(id: string, chainId: string, coinType: int, other: int, mnemonicToEntropy: string -> MnemonicCheck)
    ensures var r := ValidateBasic(FinalizeMnemonicKeyCoinTypeMsg(id, chainId, coinType), mnemonicToEntropy);
            && (r.Pass? <==> id != "" && chainId != "")
            && (id == "" ==> r == Fail("id not set"))
            && r == ValidateBasic(FinalizeMnemonicKeyCoinTypeMsg(id, chainId, other), mnemonicToEntropy)
  {
  }

  /**
   * `NewMnemonicKeyMsg` fails on an empty phrase or name and on every error of
   * `mnemonicToEntropy` except the checksum error, which it tolerates; neither
   * the derivation path nor the optional password is looked at.
   */
  lemma NewMnemonicKeyChecks(mnemonic: string, path: BIP44HDPath, name: string, password: Option<string>,
                             otherPath: BIP44HDPath, otherPassword: Option<string>, mnemonicToEntropy: string -> MnemonicCheck)
    ensures var r := ValidateBasic(NewMnemonicKeyMsg(mnemonic, path, name, password), mnemonicToEntropy);
            && (mnemonic == "" ==> r == Fail("mnemonic not set"))
            && (mnemonic != "" && name == "" ==> r == Fail("name not set"))
            && (mnemonic != "" && name != "" ==>
                  (r.Pass? <==> mnemonicToEntropy(mnemonic) == Entropy || mnemonicToEntropy(mnemonic) == Thrown(ChecksumError)))
            && r == ValidateBasic(NewMnemonicKeyMsg(mnemonic, otherPath, name, otherPassword), mnemonicToEntropy)
  {
  }

  /** A phrase that fails only its checksum is accepted; any other decoding error is rethrown as it is. */
  lemma MnemonicErrorsRethrown(mnemonic: string, path: BIP44HDPath, name: string, password: Option<string>, mnemonicToEntropy: string -> MnemonicCheck)
    requires mnemonic != "" && name != ""
    ensures mnemonicToEntropy(mnemonic) == Thrown(ChecksumError) ==>
              ValidateBasic(NewMnemonicKeyMsg(mnemonic, path, name, password), mnemonicToEntropy) == Pass
    ensures mnemonicToEntropy(mnemonic).Thrown? && mnemonicToEntropy(mnemonic).message != ChecksumError ==>
              ValidateBasic(NewMnemonicKeyMsg(mnemonic, path, name, password), mnemonicToEntropy) == Fail(mnemonicToEntropy(mnemonic).message)
  {
  }

  /**
   * `NewLedgerKeyMsg` rejects an absent or empty public key before anything
   * else, then a missing app, then a missing name; its password is not looked at.
   */
  lemma NewLedgerKeyChecks(pubKey: Option<seq<Byte>>, app: string, path: BIP44HDPath, name: string,
                           password: Option<string>, mnemonicToEntropy: string -> MnemonicCheck)
    ensures var r := ValidateBasic(NewLedgerKeyMsg(pubKey, app, path, name, password), mnemonicToEntropy);
            && (pubKey == None || pubKey == Some([]) ==> r == Fail("pub key not set"))
            && (HasBytes(pubKey) && app == "" ==> r == Fail("app not set"))
            && (HasBytes(pubKey) && app != "" && name == "" ==> r == Fail("name not set"))
            && (r.Pass? <==> HasBytes(pubKey) && app != "" && name != "")
            && r == ValidateBasic(NewLedgerKeyMsg(pubKey, app, path, name, None), mnemonicToEntropy)
  {
  }

  /**
   * `AppendLedgerKeyAppMsg` rejects an absent or empty public key before
   * anything else, then a missing app, and only then a missing vault id,
   * although the vault id is its first field.
   */
  lemma AppendLedgerKeyAppChecks(vaultId: string, pubKey: Option<seq<Byte>>, app: string, mnemonicToEntropy: string -> MnemonicCheck)
    ensures var r := ValidateBasic(AppendLedgerKeyAppMsg(vaultId, pubKey, app), mnemonicToEntropy);
            && (pubKey == None || pubKey == Some([]) ==> r == Fail("pub key not set"))
            && (HasBytes(pubKey) && app == "" ==> r == Fail("app not set"))
            && (HasBytes(pubKey) && app != "" && vaultId == "" ==> r == Fail("vault id not set"))
            && (r.Pass? <==> HasBytes(pubKey) && app != "" && vaultId != "")
  {
  }

  /**
   * The four messages with two string fields succeed exactly when both are
   * set, and report the first one when it is missing.
   */
  lemma TwoFieldMessages(a: string, b: string, mnemonicToEntropy: string -> MnemonicCheck)
    ensures forall m :: m in {ChangeKeyRingNameMsg(a, b), DeleteKeyRingMsg(a, b), ShowSensitiveKeyRingDataMsg(a, b), ChangeUserPasswordMsg(a, b)} ==>
              && (ValidateBasic(m, mnemonicToEntropy).Pass? <==> a != "" && b != "")
              && (a == "" ==> ValidateBasic(m, mnemonicToEntropy) == Fail(RequiredFields(m)[0].error))
  {
  }
}
