/** The bank as a ledger: one balance per denomination and address, and transfers that may fail. */
module Ledger {
  import opened Common

  type Balances = map<string, nat>
  type Book = map<string, Balances>

  function Balance(book: Book, denom: string, addr: string): nat {
    if denom in book && addr in book[denom] then book[denom][addr] else 0
  }

  function Put(book: Book, denom: string, addr: string, amount: nat): Book {
    book[denom := (if denom in book then book[denom] else map[])[addr := amount]]
  }

  /** SendCoins of one coin: None when the sender is short or the amount is negative. Sender and
      recipient may be the same. */
  function Transfer(book: Book, denom: string, from: string, to: string, amount: int): Option<Book> {
    if amount < 0 || Balance(book, denom, from) < amount then None
    else
      var debited := Put(book, denom, from, Balance(book, denom, from) - amount);
      Some(Put(debited, denom, to, Balance(debited, denom, to) + amount))
  }

  /** The sum of all balances. */
  ghost function Total(m: Balances): nat {
    if m == map[] then 0
    else
      var a :| a in m;
      m[a] + Total(m - {a})
  }

  ghost function Supply(book: Book, denom: string): nat {
    if denom in book then Total(book[denom]) else 0
  }

  /** The sum does not depend on the order it is taken in. */
  lemma {:induction false} TotalWithout(m: Balances, a: string)
    requires a in m
    ensures Total(m) == m[a] + Total(m - {a})
    decreases |m|
  {
    var b :| b in m && Total(m) == m[b] + Total(m - {b});
    if a != b {
      TotalWithout(m - {b}, a);
      TotalWithout(m - {a}, b);
      assert m - {a} - {b} == m - {b} - {a};
    }
  }

  lemma TotalPut(m: Balances, a: string, v: nat)
    ensures Total(m[a := v]) + (if a in m then m[a] else 0) == Total(m) + v
  {
    TotalWithout(m[a := v], a);
    if a in m {
      TotalWithout(m, a);
      assert m[a := v] - {a} == m - {a};
    } else {
      assert m[a := v] - {a} == m;
    }
  }

  lemma PutSupply(book: Book, denom: string, addr: string, amount: nat, other: string)
    ensures Supply(Put(book, denom, addr, amount), other)
         == if other == denom then Supply(book, denom) - Balance(book, denom, addr) + amount else Supply(book, other)
  {
    if other == denom {
      var m := if denom in book then book[denom] else map[];
      TotalPut(m, addr, amount);
    }
  }

  /** A transfer moves its amount and nothing else, and keeps every supply, whoever sends to whom. */
  lemma TransferEffect(book: Book, denom: string, from: string, to: string, amount: int)
    requires Transfer(book, denom, from, to, amount).Some?
    ensures var after := Transfer(book, denom, from, to, amount).value;
            (forall d :: Supply(after, d) == Supply(book, d))
            && forall d, a :: Balance(after, d, a)
                 == Balance(book, d, a) - (if d == denom && a == from then amount else 0)
                                        + (if d == denom && a == to then amount else 0)
  {
    TransferKeepsSupply(book, denom, from, to, amount);
    hide Supply;
  }

  lemma TransferKeepsSupply(book: Book, denom: string, from: string, to: string, amount: int)
    requires Transfer(book, denom, from, to, amount).Some?
    ensures forall d :: Supply(Transfer(book, denom, from, to, amount).value, d) == Supply(book, d)
  {
    hide Put, Supply, Balance;
    var debited := Put(book, denom, from, Balance(book, denom, from) - amount);
    forall d ensures Supply(Transfer(book, denom, from, to, amount).value, d) == Supply(book, d) {
      PutSupply(book, denom, from, Balance(book, denom, from) - amount, d);
      PutSupply(debited, denom, to, Balance(debited, denom, to) + amount, d);
    }
  }
}
