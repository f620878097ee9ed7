/**
 Opening of the next log file (`text_file_backend::consume`, src/text_file_backend.cpp). File counters are 32-bit and
 wrap around; `sizes` gives the size a file of a counter value has when it is opened.
 */
module FileOpening {
  import opened Wrappers

  type Counter = n: int | 0 <= n < 0x1_0000_0000

  /** The counter after `n`. */
  function Successor(n: Counter): (r: Counter)
    ensures r == (n + 1) % WORD
  {
    if n == WORD - 1 then 0 else n + 1
  }

  function Predecessor(n: Counter): (r: Counter)
    ensures Successor(r) == n
  {
    if n == 0 then WORD - 1 else n - 1
  }

  /** Steps upwards, with wrap-around, from one counter to another. */
  function Distance(a: Counter, b: Counter): (d: nat)
    ensures d < WORD
  {
    if a <= b then b - a else b - a + WORD
  }

  /** A file that is not empty and has no room for the message. */
  predicate Full(size: nat, message: nat, rotationSize: nat)
  {
    size > 0 && size + message >= rotationSize
  }

  /** The counter `k` steps after `n`. */
  function Advanced(n: Counter, k: nat): (r: Counter)
    ensures r == (n + k) % WORD
  {
    if k == 0 then n else Successor(Advanced(n, k - 1))
  }

  class Backend {
    var fileCounter: Counter
    var counterIsLastUsed: bool
    var isFirstFile: bool
    var charactersWritten: nat

    constructor ()
      ensures fileCounter == 0 && !counterIsLastUsed && isFirstFile && charactersWritten == 0
    {
      fileCounter, counterIsLastUsed, isFirstFile, charactersWritten := 0, false, true, 0;
    }

    /** The counter for the next file name; `lastFileIsStored` is asked only for the first file in append mode. */
    method NextCounter(append: bool, lastFileIsStored: bool)
      modifies this`fileCounter, this`counterIsLastUsed
      ensures counterIsLastUsed
      ensures fileCounter == if old(counterIsLastUsed) && !(isFirstFile && append && lastFileIsStored)
                             then Successor(old(fileCounter)) else old(fileCounter)
    {
      if counterIsLastUsed {
        var increment := true;
        if isFirstFile && append {
          increment := !lastFileIsStored;
        }
        if increment {
          fileCounter := Successor(fileCounter);
        }
      } else {
        counterIsLastUsed := true;
      }
    }

    /** The first counter tried by the search. */
    function FirstTried(append: bool, lastFileIsStored: bool): (n: Counter)
      reads this
    {
      if counterIsLastUsed && !(isFirstFile && append && lastFileIsStored) then Successor(fileCounter) else fileCounter
    }

    /** Opens the file of the current counter and takes note of its size. */
    method Open(append: bool, lastFileIsStored: bool, sizes: Counter -> nat)
      modifies this
      ensures fileCounter == old(FirstTried(append, lastFileIsStored))
      ensures counterIsLastUsed && !isFirstFile && charactersWritten == sizes(fileCounter)
    {
      NextCounter(append, lastFileIsStored);
      isFirstFile := false;
      charactersWritten := sizes(fileCounter);
    }

    /** The rounds that take the file name from the counter. */
    method SearchFile(append: bool, lastFileIsStored: bool, sizes: Counter -> nat, message: nat, rotationSize: nat)
      returns (rounds: nat)
      modifies this
      ensures 1 <= rounds <= WORD
      ensures charactersWritten == sizes(fileCounter)
      ensures Searched(old(FirstTried(append, lastFileIsStored)), fileCounter, rounds - 1, sizes, message, rotationSize)
      ensures !Full(charactersWritten, message, rotationSize) || fileCounter == Predecessor(old(fileCounter))
    {
      var last := Predecessor(fileCounter);
      ghost var start := FirstTried(append, lastFileIsStored);
      rounds := 1;
      Open(append, lastFileIsStored, sizes);
      while charactersWritten > 0 && charactersWritten + message >= rotationSize && fileCounter != last
        invariant counterIsLastUsed && !isFirstFile && charactersWritten == sizes(fileCounter)
        invariant 1 <= rounds && rounds - 1 + Distance(fileCounter, last) == Distance(start, last)
        invariant Searched(start, fileCounter, rounds - 1, sizes, message, rotationSize)
        decreases Distance(fileCounter, last)
      {
        Open(append, lastFileIsStored, sizes);
        rounds := rounds + 1;
      }
    }

    /**
     The loop ends for every assignment of sizes to counters, within 2^32 + 1 rounds. The file it leaves open is the
     first one in counter order that is empty or has room for the message, unless all counters were used up. A file
     left over from a failed stream is tried first.
     */
    method OpenFile(append: bool, lastFileIsStored: bool, previous: Option<nat>, sizes: Counter -> nat, message: nat, rotationSize: nat)
      returns (rounds: nat, reused: bool)
      modifies this
      ensures rounds <= WORD + 1
      ensures reused <==> previous.Some? && !Full(previous.value, message, rotationSize)
      ensures reused ==> fileCounter == old(fileCounter) && charactersWritten == previous.value
      ensures !reused ==>
        && charactersWritten == sizes(fileCounter)
        && (!Full(charactersWritten, message, rotationSize) || fileCounter == Predecessor(old(fileCounter)))
        && Searched(old(FirstTried(append && previous.None?, lastFileIsStored)), fileCounter,
                    rounds - (if previous.Some? then 2 else 1), sizes, message, rotationSize)
    {
      hide Searched;
      rounds, reused := 0, false;
      if previous.Some? {
        isFirstFile := false;
        charactersWritten := previous.value;
        if charactersWritten == 0 || charactersWritten + message < rotationSize || fileCounter == Predecessor(fileCounter) {
          return 1, true;
        }
        rounds := 1;
      }
      var more := SearchFile(append, lastFileIsStored, sizes, message, rotationSize);
      rounds := rounds + more;
    }
  }

  /** The search went `k` files on from `start`, all of them full, to `found`. */
  ghost predicate Searched(start: Counter, found: Counter, k: int, sizes: Counter -> nat, message: nat, rotationSize: nat)
  {
    && 0 <= k < WORD && found == Advanced(start, k)
    && forall j :: 0 <= j < k ==> Full(sizes(Advanced(start, j)), message, rotationSize)
  }
}
