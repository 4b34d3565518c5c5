/** The commands, their words on the wire, and which of them the cache accepts when. */
module Commands {
  import opened Bytes

  datatype Command = INITIALIZE | TRAIN | LOAD | SEARCH | EVICT | ADD

  datatype Status = UNINITIALIZED | INITIALIZED | TRAINING | READY

  function Ascii(s: string): (b: Bytes)
    requires forall c | c in s :: c as int < 128
    ensures |b| == |s|
  {
    seq(|s|, i requires 0 <= i < |s| =>
      assert s[i] in s;
      (s[i] as int) as byte)
  }

  function WordOf(c: Command): Bytes {
    match c
    case INITIALIZE => Ascii("INITIALIZE")
    case TRAIN => Ascii("TRAIN")
    case LOAD => Ascii("LOAD")
    case SEARCH => Ascii("SEARCH")
    case EVICT => Ascii("EVICT")
    case ADD => Ascii("ADD")
  }

  /** What the status allows: commands that need a trained index only when READY, training
      once there is a core, INITIALIZE whenever the cache is not in the middle of training. */
  predicate Allowed(status: Status, c: Command) {
    match c
    case INITIALIZE => status != TRAINING
    case TRAIN => status == INITIALIZED || status == READY
    case _ => status == READY
  }

  /** Words identify commands. */
  lemma WordsDiffer(a: Command, b: Command)
    requires WordOf(a) == WordOf(b)
    ensures a == b
  {
    assert WordOf(a)[0] == WordOf(b)[0];
    assert WordOf(a)[1] == WordOf(b)[1];
    assert |WordOf(a)| == |WordOf(b)|;
  }

  /** What a command line comes to under a status: the command it names, if that is allowed. */
  ghost function AcceptedAs(status: Status, word: Bytes): (r: Option<Command>)
    ensures r.Some? ==> WordOf(r.value) == word && Allowed(status, r.value)
    ensures r.None? ==> forall c | WordOf(c) == word :: !Allowed(status, c)
  {
    if exists c :: WordOf(c) == word && Allowed(status, c)
    then var c :| WordOf(c) == word && Allowed(status, c); Some(c)
    else None
  }

  /** Those two properties leave one answer for every line. */
  lemma OneAnswer(status: Status, word: Bytes, r: Option<Command>)
    requires r.Some? ==> WordOf(r.value) == word && Allowed(status, r.value)
    requires r.None? ==> forall c | WordOf(c) == word :: !Allowed(status, c)
    ensures r == AcceptedAs(status, word)
  {
    var a := AcceptedAs(status, word);
    if r.Some? && a.Some? {
      WordsDiffer(r.value, a.value);
    }
  }

  /** The bytes of each word. */
  lemma WordsSpelled()
    ensures WordOf(INITIALIZE) == [73, 78, 73, 84, 73, 65, 76, 73, 90, 69]
    ensures WordOf(TRAIN) == [84, 82, 65, 73, 78]
    ensures WordOf(LOAD) == [76, 79, 65, 68]
    ensures WordOf(SEARCH) == [83, 69, 65, 82, 67, 72]
    ensures WordOf(EVICT) == [69, 86, 73, 67, 84]
    ensures WordOf(ADD) == [65, 68, 68]
  {
    assert |WordOf(INITIALIZE)| == 10 && |WordOf(TRAIN)| == 5 && |WordOf(LOAD)| == 4;
    assert |WordOf(SEARCH)| == 6 && |WordOf(EVICT)| == 5 && |WordOf(ADD)| == 3;
  }

  /** The whole table: a READY cache takes all six words, TRAIN and INITIALIZE included; an
      INITIALIZED one only those two; an UNINITIALIZED one only INITIALIZE; one in the middle of
      training none. Any other line is refused under every status. */
  lemma AcceptanceTable(word: Bytes)
    ensures AcceptedAs(READY, word) ==
            if word == [83, 69, 65, 82, 67, 72] then Some(SEARCH)
            else if word == [65, 68, 68] then Some(ADD)
            else if word == [76, 79, 65, 68] then Some(LOAD)
            else if word == [69, 86, 73, 67, 84] then Some(EVICT)
            else if word == [84, 82, 65, 73, 78] then Some(TRAIN)
            else if word == [73, 78, 73, 84, 73, 65, 76, 73, 90, 69] then Some(INITIALIZE)
            else None
    ensures AcceptedAs(INITIALIZED, word) ==
            if word == [84, 82, 65, 73, 78] then Some(TRAIN)
            else if word == [73, 78, 73, 84, 73, 65, 76, 73, 90, 69] then Some(INITIALIZE)
            else None
    ensures AcceptedAs(UNINITIALIZED, word) ==
            if word == [73, 78, 73, 84, 73, 65, 76, 73, 90, 69] then Some(INITIALIZE) else None
    ensures AcceptedAs(TRAINING, word) == None
  {
    WordsSpelled();
    var named := Named(word);
    forall status
      ensures AcceptedAs(status, word) == if named.Some? && Allowed(status, named.value) then named else None
    {
      OneAnswer(status, word, if named.Some? && Allowed(status, named.value) then named else None);
    }
    assert AcceptedAs(READY, word) == named;
  }

  /** The command a word names. */
  ghost function Named(word: Bytes): (r: Option<Command>)
    ensures r.Some? ==> WordOf(r.value) == word && forall c | WordOf(c) == word :: c == r.value
    ensures r.None? ==> forall c :: WordOf(c) != word
  {
    if exists c :: WordOf(c) == word then
      var c :| WordOf(c) == word;
      assert forall a | WordOf(a) == word :: a == c by {
        forall a | WordOf(a) == word
          ensures a == c
        {
          WordsDiffer(a, c);
        }
      }
      Some(c)
    else None
  }

  /** The fall-through switch of processCommand, status by status. None is its exception. */
  method ProcessCommand(status: Status, word: Bytes) returns (r: Option<Command>)
    ensures r.Some? ==> WordOf(r.value) == word && Allowed(status, r.value)
    ensures r.None? ==> forall c | WordOf(c) == word :: !Allowed(status, c)
    ensures r == AcceptedAs(status, word)
  {
    AcceptanceTable(word);
    WordsSpelled();
    if status == READY {
      if word == WordOf(SEARCH) {
        return Some(SEARCH);
      } else if word == WordOf(ADD) {
        return Some(ADD);
      } else if word == WordOf(LOAD) {
        return Some(LOAD);
      } else if word == WordOf(EVICT) {
        return Some(EVICT);
      }
    }
    if status == READY || status == INITIALIZED {
      if word == WordOf(TRAIN) {
        return Some(TRAIN);
      }
    }
    if status == READY || status == INITIALIZED || status == UNINITIALIZED {
      if word == WordOf(INITIALIZE) {
        return Some(INITIALIZE);
      }
    }
    return None;
  }
}
