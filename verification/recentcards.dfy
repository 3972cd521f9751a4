/** The login page's list of recently used card names
    (src/components/EnhancedLoginPage.tsx): a most-recently-used list of at
    most five entries, most recent first, kept in storage, and the submit
    handler that feeds it. */
module RecentCards {
  import opened Wrappers
  import opened Seqs
  import opened Storage
  import Strings
  import LoginRules

  /** The number of cards kept. */
  const Capacity: nat := 5

  /** The list update of `saveCardToStorage(card)`: earlier occurrences of
      `card` dropped, `card` put in front, the list cut to `Capacity`. */
  function Record(cards: seq<string>, card: string): (r: seq<string>)
    ensures 1 <= |r| <= Capacity
    ensures r[0] == card && card !in r[1..]
    ensures multiset(r)[card] == 1
    ensures r[1..] == Take(Without(cards, card), Capacity - 1)
    ensures NoDup(cards) ==> NoDup(r)
    ensures card in cards ==> |r| <= |cards|
    ensures card !in cards ==> |r| == if |cards| < Capacity then |cards| + 1 else Capacity
  {
    RecordFacts(cards, card);
    Take([card] + Without(cards, card), Capacity)
  }

  lemma RecordFacts(cards: seq<string>, card: string)
    ensures var r := Take([card] + Without(cards, card), Capacity);
      && r == [card] + Take(Without(cards, card), Capacity - 1)
      && multiset(r)[card] == 1
      && (NoDup(cards) ==> NoDup(r))
      && (card in cards ==> |r| <= |cards|)
  {
    var rest := Without(cards, card);
    var r := Take([card] + rest, Capacity);
    assert r == [card] + Take(rest, Capacity - 1);
    assert multiset(r) == multiset{card} + multiset(r[1..]) by {
      assert r == [card] + r[1..];
    }
    assert card !in multiset(r[1..]);
    if NoDup(cards) {
      WithoutNoDup(cards, card);
      NoDupConsTake(card, rest, Capacity - 1);
    }
    if card in cards {
      WithoutLength(cards, card);
    }
  }

  /** Putting a fresh value in front of a duplicate-free list, then cutting
      it, leaves it duplicate-free. */
  lemma NoDupConsTake(x: string, xs: seq<string>, n: nat)
    requires NoDup(xs) && x !in xs
    ensures NoDup([x] + Take(xs, n))
  {
    var t := Take(xs, n);
    var r := [x] + t;
    forall i, j | 0 <= i < j < |r| ensures r[i] != r[j] {
      assert r[j] == xs[j - 1];
      if i > 0 {
        assert r[i] == xs[i - 1];
      }
    }
  }

  /** Recording every name of `history` in turn, oldest first. */
  function RecordAll(cards: seq<string>, history: seq<string>): seq<string>
  {
    if history == [] then cards
    else Record(RecordAll(cards, history[..|history| - 1]), history[|history| - 1])
  }

  /** The distinct names of `history`, most recently used first: the reference
      order an unbounded MRU list would have. */
  function MostRecentFirst(history: seq<string>): (r: seq<string>)
    ensures NoDup(r)
    ensures forall x :: x in r <==> x in history
  {
    if history == [] then []
    else
      var last := history[|history| - 1];
      var older := MostRecentFirst(history[..|history| - 1]);
      WithoutNoDup(older, last);
      NoDupConsTake(last, Without(older, last), |older|);
      assert Take(Without(older, last), |older|) == Without(older, last);
      assert history == history[..|history| - 1] + [last];
      forall x | x != last ensures x in Without(older, last) <==> x in older {
        assert multiset(Without(older, last))[x] == multiset(older)[x];
      }
      [last] + Without(older, last)
  }

  /** Cutting a duplicate-free list before or after removing one value
      gives the same first `n` entries when the cut keeps `n + 1`. */
  lemma TakeWithoutCommute(d: seq<string>, c: string, n: nat)
    requires NoDup(d)
    ensures Take(Without(Take(d, n + 1), c), n) == Take(Without(d, c), n)
  {
    if |d| > n + 1 {
      var front, back := d[..n + 1], d[n + 1..];
      assert d == front + back;
      WithoutAppend(front, back, c);
      assert NoDup(front) by {
        forall i, j | 0 <= i < j < |front| ensures front[i] != front[j] {
          assert front[i] == d[i] && front[j] == d[j];
        }
      }
      NoDupCount(front, c);
      WithoutLength(front, c);
      var w := Without(front, c);
      assert (w + Without(back, c))[..n] == w[..n];
    }
  }

  /** The list kept after any history of logins is the five most recently
      used distinct names, most recent first. */
  lemma {:induction false} RecordAllIsRecentDistinct(history: seq<string>)
    ensures RecordAll([], history) == Take(MostRecentFirst(history), Capacity)
  {
    if history != [] {
      var last := history[|history| - 1];
      var earlier := history[..|history| - 1];
      var d := MostRecentFirst(earlier);
      RecordAllIsRecentDistinct(earlier);
      assert RecordAll([], history) == Record(Take(d, Capacity), last);
      RecordFacts(Take(d, Capacity), last);
      TakeWithoutCommute(d, last, Capacity - 1);
      var m := [last] + Without(d, last);
      assert MostRecentFirst(history) == m;
      TakeCons(last, Without(d, last), Capacity - 1);
    }
  }

  /** Whatever the history, the kept list is bounded and duplicate-free. */
  lemma RecordAllBounded(history: seq<string>)
    ensures |RecordAll([], history)| <= Capacity
    ensures NoDup(RecordAll([], history))
  {
    RecordAllIsRecentDistinct(history);
    var d := MostRecentFirst(history);
    assert Take(d, Capacity) == [] + Take(d, Capacity);
    if |d| > 0 {
      NoDupConsTake(d[0], d[1..], Capacity - 1);
      assert d == [d[0]] + d[1..];
      assert d[0] !in d[1..];
    }
  }

  /** Using a name not seen before puts it in front of the earlier order. */
  lemma MostRecentFirstFresh(history: seq<string>, x: string)
    requires x !in history
    ensures MostRecentFirst(history + [x]) == [x] + MostRecentFirst(history)
  {
    assert (history + [x])[..|history|] == history;
  }

  /** For a history of distinct names the most-recent-first order is the
      history reversed. */
  lemma {:induction false} MostRecentFirstDistinct(history: seq<string>)
    requires NoDup(history)
    ensures MostRecentFirst(history) == Reverse(history)
  {
    if history != [] {
      var n := |history| - 1;
      var front, last := history[..n], history[n];
      assert history == front + [last];
      assert NoDup(front) by {
        forall i, j | 0 <= i < j < |front| ensures front[i] != front[j] {
          assert front[i] == history[i] && front[j] == history[j];
        }
      }
      assert last !in front by {
        forall i | 0 <= i < |front| ensures front[i] != last {
          assert front[i] == history[i];
        }
      }
      MostRecentFirstDistinct(front);
      MostRecentFirstFresh(front, last);
    }
  }

  /** Recording distinct cards keeps the last five, newest first: the oldest
      ones are evicted. */
  lemma DistinctCardsEvictOldest(history: seq<string>)
    requires NoDup(history)
    ensures var r := RecordAll([], history);
      |r| == if |history| < Capacity then |history| else Capacity
    ensures var r := RecordAll([], history);
      forall i :: 0 <= i < |r| ==> r[i] == history[|history| - 1 - i]
  {
    RecordAllIsRecentDistinct(history);
    MostRecentFirstDistinct(history);
  }

  /** Re-recording a card already in the list moves it to the front without
      growing the list; a list within capacity keeps exactly its cards. */
  lemma PromoteExisting(cards: seq<string>, card: string)
    requires NoDup(cards) && card in cards
    ensures |Record(cards, card)| == if |cards| < Capacity then |cards| else Capacity
    ensures |cards| <= Capacity ==> multiset(Record(cards, card)) == multiset(cards)
  {
    var r := Record(cards, card);
    var rest := Without(cards, card);
    NoDupCount(cards, card);
    WithoutLength(cards, card);
    assert |rest| == |cards| - 1;
    if |cards| <= Capacity {
      assert r == [card] + rest;
      forall y ensures multiset(r)[y] == multiset(cards)[y] {
        assert multiset(r) == multiset{card} + multiset(rest);
      }
      assert multiset(r) == multiset(cards);
    }
  }

  // ---------------------------------------------------------------------
  // Persistence and the submit handler
  // ---------------------------------------------------------------------

  /** The storage key of the saved card list. */
  const SavedCardsKey: string := "khanfar-saved-cards"

  /** The load on mount: nothing stored gives the empty list; a stored value
      that does not parse gives `None`, standing for the exception
      `JSON.parse` raises there, which nothing catches. */
  function LoadSavedCards(store: Store, json: Codec<seq<string>>): (r: Option<seq<string>>)
    ensures GetItem(store, SavedCardsKey).None? ==> r == Some([])
    ensures GetItem(store, SavedCardsKey).Some? ==> r == json.decode(store[SavedCardsKey])
  {
    match GetItem(store, SavedCardsKey)
    case None => Some([])
    case Some(raw) => json.decode(raw)
  }

  datatype Saved = Saved(cards: seq<string>, store: Store)

  /** `saveCardToStorage(card)`: the list recorded and written back whole;
      no other storage entry changes. */
  function SaveCardToStorage(cards: seq<string>, store: Store, json: Codec<seq<string>>, card: string): (r: Saved)
    ensures r.cards == Record(cards, card)
    ensures SavedCardsKey in r.store && r.store[SavedCardsKey] == json.encode(r.cards)
    ensures forall k :: k != SavedCardsKey ==> (k in r.store <==> k in store)
    ensures forall k :: k != SavedCardsKey && k in store ==> r.store[k] == store[k]
  {
    var updated := Record(cards, card);
    Saved(updated, SetItem(store, SavedCardsKey, json.encode(updated)))
  }

  /** What is saved is what the next load reads. */
  lemma SaveThenLoadCards(cards: seq<string>, store: Store, json: Codec<seq<string>>, card: string)
    requires Faithful(json)
    ensures var r := SaveCardToStorage(cards, store, json, card);
      LoadSavedCards(r.store, json) == Some(r.cards)
  {
    var r := SaveCardToStorage(cards, store, json, card);
    assert json.encode(r.cards) != "" && json.decode(json.encode(r.cards)) == Some(r.cards);
  }

  /** The outcome of `handleSubmit`: the updated list and storage, and the
      name passed to `onLogin`, if any. */
  datatype Submitted = Submitted(cards: seq<string>, store: Store, login: Option<string>)

  /** `handleSubmit`: a username that is all whitespace does nothing;
      otherwise its trimmed form is recorded and used to log in. */
  function HandleSubmit(cards: seq<string>, store: Store, json: Codec<seq<string>>, username: string): (r: Submitted)
    ensures Strings.AllSpace(username) ==> r == Submitted(cards, store, None)
    ensures !Strings.AllSpace(username) ==>
      && Saved(r.cards, r.store) == SaveCardToStorage(cards, store, json, Strings.Trim(username))
      && r.login == Some(Strings.Trim(username))
      && r.cards[0] == Strings.Trim(username)
  {
    var name := Strings.Trim(username);
    if name != "" then
      var saved := SaveCardToStorage(cards, store, json, name);
      Submitted(saved.cards, saved.store, Some(name))
    else Submitted(cards, store, None)
  }

  /** The name just used to log in heads the saved-card menu, and picking it
      there puts it back in the username field, except for a name spelled
      like the menu's placeholder value, which the menu handler ignores. */
  lemma PickSubmittedName(cards: seq<string>, store: Store, json: Codec<seq<string>>, username: string, current: string)
    requires !Strings.AllSpace(username)
    ensures var r := HandleSubmit(cards, store, json, username);
      var name := Strings.Trim(username);
      && |r.cards| >= 1
      && LoginRules.HandleSavedCardSelect(current, r.cards[0]) ==
           if name == LoginRules.SelectPlaceholder then current else name
  {
  }
}
