/** The four kinds of ledger record (TransactionType.java). */
module TransactionTypes {
  import opened Results

  datatype TransactionType = Deposit | Withdrawal | TransferOut | TransferIn

  /** Every kind, in declaration order (TransactionType.values()). */
  const AllTypes: seq<TransactionType> := [Deposit, Withdrawal, TransferOut, TransferIn]

  /** There are exactly four kinds, pairwise different. */
  lemma ExactlyFourTypes()
    ensures |AllTypes| == 4
    ensures forall t: TransactionType :: t in AllTypes
    ensures forall i, j :: 0 <= i < j < |AllTypes| ==> AllTypes[i] != AllTypes[j]
  {
    forall t: TransactionType ensures t in AllTypes {
      match t
      case Deposit => assert AllTypes[0] == t;
      case Withdrawal => assert AllTypes[1] == t;
      case TransferOut => assert AllTypes[2] == t;
      case TransferIn => assert AllTypes[3] == t;
    }
  }

  /** getDescription: the text given to the kind's constructor. */
  function Description(t: TransactionType): (r: string)
    ensures |r| > 0
    ensures forall c :: c in r ==> c == ' ' || 'А' <= c <= 'я'
  {
    match t
    case Deposit => "Пополнение"
    case Withdrawal => "Снятие"
    case TransferOut => "Перевод с отправителя"
    case TransferIn => "Перевод на получателя"
  }

  /** The description determines the kind. */
  lemma DescriptionInjective(a: TransactionType, b: TransactionType)
    ensures Description(a) == Description(b) <==> a == b
  {
  }

  /** name(): the constant's identifier, which is what the transaction store persists. */
  function Name(t: TransactionType): (r: string)
    ensures |r| > 0
    ensures forall c :: c in r ==> c == '_' || 'A' <= c <= 'Z'
  {
    match t
    case Deposit => "DEPOSIT"
    case Withdrawal => "WITHDRAWAL"
    case TransferOut => "TRANSFER_OUT"
    case TransferIn => "TRANSFER_IN"
  }

  /**
   * valueOf(name): the kind whose name is exactly `name`; any other string makes
   * valueOf throw, modelled as None.
   */
  function ValueOf(name: string): (r: Option<TransactionType>)
    ensures forall t :: r == Some(t) <==> Name(t) == name
  {
    if name == "DEPOSIT" then Some(Deposit)
    else if name == "WITHDRAWAL" then Some(Withdrawal)
    else if name == "TRANSFER_OUT" then Some(TransferOut)
    else if name == "TRANSFER_IN" then Some(TransferIn)
    else None
  }

  /** Persisting a kind by its name and reading it back gives the same kind. */
  lemma NameRoundTrip(t: TransactionType)
    ensures ValueOf(Name(t)) == Some(t)
  {
  }
}
