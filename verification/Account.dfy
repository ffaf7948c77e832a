/** ctrlers/types/account.go: accounts as values, and what crediting and debiting one does to the total. */
module Accounts {
  import opened Prelude
  import opened Amounts
  import opened Delegatees

  datatype Account = Account(nonce: nat, balance: nat, name: string, docURL: string)

  const NEW_ACCOUNT := Account(0, 0, "", "")

  type Book = map<Address, Account>

  function Balance(a: Account): int
  {
    a.balance
  }

  ghost function TotalBalance(book: Book): int
  {
    SumMap(Balance, book)
  }

  function Credit(book: Book, addr: Address, amount: nat): Book
    requires addr in book
  {
    book[addr := book[addr].(balance := Add256(book[addr].balance, amount))]
  }

  function Debit(book: Book, addr: Address, amount: nat): Book
    requires addr in book && amount <= book[addr].balance
  {
    book[addr := book[addr].(balance := book[addr].balance - amount)]
  }

  function FindOrNew(book: Book, addr: Address): Book
  {
    if addr in book then book else book[addr := NEW_ACCOUNT]
  }

  lemma CreditAdds(book: Book, addr: Address, amount: nat)
    requires addr in book && TotalBalance(book) + amount < U256
    ensures TotalBalance(Credit(book, addr, amount)) == TotalBalance(book) + amount
    ensures Credit(book, addr, amount)[addr].balance == book[addr].balance + amount
  {
    SumMapBounds(Balance, book, addr);
    SumMapUpdate(Balance, book, addr, Credit(book, addr, amount)[addr]);
  }

  lemma DebitSubtracts(book: Book, addr: Address, amount: nat)
    requires addr in book && amount <= book[addr].balance
    ensures TotalBalance(Debit(book, addr, amount)) == TotalBalance(book) - amount
  {
    SumMapUpdate(Balance, book, addr, Debit(book, addr, amount)[addr]);
  }

  lemma NewAccountAddsNothing(book: Book, addr: Address)
    ensures TotalBalance(FindOrNew(book, addr)) == TotalBalance(book)
  {
    SumMapUpdate(Balance, book, addr, NEW_ACCOUNT);
  }

  lemma TotalIsNonNegative(book: Book)
    ensures TotalBalance(book) >= 0
    ensures forall a | a in book :: book[a].balance <= TotalBalance(book)
  {
    SumMapNonNegative(Balance, book);
    forall a | a in book ensures book[a].balance <= TotalBalance(book) { SumMapBounds(Balance, book, a); }
  }
}
