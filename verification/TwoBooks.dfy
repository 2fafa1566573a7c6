/** The exchange's linked book and the client's, end to end: one is driven by requests, the other by what
    the first announces. */
module TwoBooks {
  import opened Types
  import opened Matching
  import opened Feed
  import opened Runs
  import Exchange = MEOrderBook
  import Mirror = MarketOrderBook

  /** An exchange that has served these requests from its beginning. */
  method Serve(ticker: nat, reqs: seq<Request>) returns (e: Exchange.MEOrderBook)
    requires Exchange.Serviceable(ticker, reqs)
    ensures fresh(e) && e.ticker == ticker && e.Valid() && e.At(reqs)
  {
    e := new Exchange.MEOrderBook(ticker);
    assert [] + reqs == reqs;
    e.ProcessAll([], reqs);
  }

  lemma {:induction false} NoClears(b: Book, us: seq<Update>)
    requires LegalAll(b, us)
    ensures Mirror.ClearsNothing(b, us)
    decreases |us|
  {
    if us != [] {
      NoClears(Apply(b, us[0]), us[1..]);
      forall i | 0 <= i < |us| && us[i].kind.Clear?
        ensures ApplyAll(b, us[..i]) == EMPTY
      {
        assert us[i] == us[1..][i - 1] && us[..i][1..] == us[1..][..i - 1];
      }
    }
  }

  /** A mirror that has followed this feed from its beginning. */
  method Watch(us: seq<Update>) returns (m: Mirror.MarketOrderBook)
    requires Mirror.ApplicableAll(EMPTY, us) && Mirror.ClearsNothing(EMPTY, us)
    ensures fresh(m) && m.Valid() && m.book.Abs() == ApplyAll(EMPTY, us)
  {
    m := new Mirror.MarketOrderBook();
    m.FollowAll(us);
  }

  lemma FeedReady(ticker: nat, reqs: seq<Request>)
    requires Exchange.Serviceable(ticker, reqs) && Mirror.StorableAll(EMPTY, Run(ticker, reqs).updates)
    ensures var run := Run(ticker, reqs);
            && Mirror.ApplicableAll(EMPTY, run.updates) && Mirror.ClearsNothing(EMPTY, run.updates)
            && ApplyAll(EMPTY, run.updates) == PublicBook(run.after.book)
  {
    Exchange.ServiceableRun(ticker, reqs);
    FeedRebuildsBook(ticker, reqs);
    EmptyOK();
    Mirror.FeedApplicable(EMPTY, Run(ticker, reqs).updates);
    NoClears(EMPTY, Run(ticker, reqs).updates);
  }

  /** What the exchange announces, followed by the mirror, leaves the mirror with the exchange's book,
      public fields only, on both linked structures, whenever the mirror's arrays can take the feed. */
  method ServeAndWatch(ticker: nat, reqs: seq<Request>) returns (e: Exchange.MEOrderBook, m: Mirror.MarketOrderBook)
    requires Exchange.Serviceable(ticker, reqs) && Mirror.StorableAll(EMPTY, Run(ticker, reqs).updates)
    ensures e.At(reqs) && m.Valid() && m.book.Abs() == PublicBook(e.book.Abs())
  {
    FeedReady(ticker, reqs);
    e := Serve(ticker, reqs);
    m := Watch(e.updates);
  }
}
