/** The error buffer (crates/rmw-zenoh-rs/src/context.rs:11-58): 1024 characters that stand for an
    optional text. */
module ErrorStrings {
  import opened Common

  const SIZE: nat := 1024

  const NUL: char := '\0'

  const DEFAULT_ERROR := "Mock error"

  /** The text of a C string: everything before the first NUL. */
  function CText(s: seq<char>): (text: seq<char>)
    requires NUL in s
    ensures NUL !in text && |text| < |s| && text + [NUL] <= s
  {
    if s[0] == NUL then [] else [s[0]] + CText(s[1..])
  }

  lemma {:induction false} CTextIs(s: seq<char>, n: nat)
    requires n < |s| && s[n] == NUL && NUL !in s[..n]
    ensures CText(s) == s[..n]
  {
    if n > 0 {
      assert s[0] in s[..n];
      assert s[1..][..n - 1] == s[..n][1..];
      CTextIs(s[1..], n - 1);
    }
  }

  function Cut(text: seq<char>): seq<char> {
    if |text| <= SIZE - 1 then text else text[..SIZE - 1]
  }

  // ---- What the buffer stands for

  datatype Op = Set(text: Option<string>) | Get | Reset

  /** A set text, cut to what fits; nothing after a reset, or after setting null or an empty text. */
  function Step(state: Option<string>, op: Op): Option<string> {
    match op
    case Set(Some(text)) => if text == "" then None else Some(Cut(text))
    case Set(None) => None
    case Get => Some(Shown(state))
    case Reset => None
  }

  /** What `rmw_get_error_string` shows. Showing the default text also stores it. */
  function Shown(state: Option<string>): string {
    if state == None then DEFAULT_ERROR else state.value
  }

  function Run(ops: seq<Op>): Option<string> {
    if ops == [] then None else Step(Run(ops[..|ops| - 1]), ops[|ops| - 1])
  }

  /** The last operation that was not a get, if there was one. */
  function LastChange(ops: seq<Op>): Option<Op> {
    if ops == [] then None
    else if ops[|ops| - 1] != Get then Some(ops[|ops| - 1])
    else LastChange(ops[..|ops| - 1])
  }

  /** After any run, a get shows the text of the last change if that set a nonempty one, up to its
      first 1023 characters, and the default text if it did anything else or there was none. */
  lemma {:induction false} GetShowsTheLastChange(ops: seq<Op>)
    ensures var shown := Shown(Run(ops));
            match LastChange(ops)
            case Some(Set(Some(text))) =>
              if text == "" then shown == "Mock error"
              else shown <= text && |shown| == if |text| < 1023 then |text| else 1023
            case _ => shown == "Mock error"
  {
    if ops != [] && ops[|ops| - 1] == Get {
      GetShowsTheLastChange(ops[..|ops| - 1]);
    }
  }

  /** What is shown is never empty and always fits. */
  lemma {:induction false} ShownFits(ops: seq<Op>)
    requires forall op :: op in ops && op.Set? && op.text.Some? ==> NUL !in op.text.value
    ensures 0 < |Shown(Run(ops))| < SIZE && NUL !in Shown(Run(ops))
  {
    if ops != [] {
      assert ops[|ops| - 1] in ops;
      ShownFits(ops[..|ops| - 1]);
    }
  }

  // ---- The buffer

  class ErrorBuffer {
    const buffer: array<char>
    ghost var ops: seq<Op>

    /** A NUL is always present, and the text before it is what the run so far stands for. */
    ghost predicate Valid()
      reads this, buffer
    {
      && buffer.Length == SIZE && NUL in buffer[..]
      && (match Run(ops)
          case None => buffer[0] == NUL
          case Some(text) => text != "" && CText(buffer[..]) == text)
    }

    constructor ()
      ensures Valid() && fresh(buffer) && ops == []
    {
      buffer := new char[SIZE](_ => NUL);
      ops := [];
      new;
      assert buffer[..][0] == NUL;
    }

    /** `rmw_set_error_string`. The argument is null or the memory behind a C string. */
    method Set(s: Option<seq<char>>)
      requires Valid() && (s.Some? ==> NUL in s.value)
      modifies this`ops, buffer
      ensures Valid()
      ensures ops == old(ops) + [Op.Set(if s.None? then None else Some(CText(s.value)))]
    {
      if s.Some? {
        Fill(s.value);
        ops := ops + [Op.Set(Some(CText(s.value)))];
      } else {
        buffer[0] := NUL;
        ops := ops + [Op.Set(None)];
        assert buffer[..][0] == NUL;
      }
      assert ops[..|ops| - 1] == old(ops);
    }

    /** The copying loop: up to 1023 characters or to the NUL, then a NUL. */
    method Fill(s: seq<char>)
      requires buffer.Length == SIZE && NUL in s
      modifies buffer
      ensures NUL in buffer[..] && CText(buffer[..]) == Cut(CText(s))
      ensures CText(buffer[..]) <= CText(s)
      ensures |CText(buffer[..])| == if |CText(s)| < 1023 then |CText(s)| else 1023
    {
      ghost var text := CText(s);
      var i := 0;
      while i < 1023
        invariant 0 <= i <= 1023 && i <= |text|
        invariant buffer[..i] == text[..i]
      {
        assert s[..|text| + 1] == text + [NUL];
        var c := s[i];
        assert c == s[..|text| + 1][i];
        buffer[i] := c;
        if c == NUL {
          break;
        }
        i := i + 1;
      }
      buffer[i] := NUL;
      assert buffer[..i] == text[..i] == Cut(text);
      assert buffer[..][i] == NUL && buffer[..][..i] == buffer[..i];
      CTextIs(buffer[..], i);
    }

    /** `rmw_get_error_string`: the whole buffer by value. */
    method Get() returns (shown: seq<char>)
      requires Valid()
      modifies this`ops, buffer
      ensures Valid() && ops == old(ops) + [Op.Get]
      ensures |shown| == SIZE && NUL in shown && CText(shown) == Shown(Run(old(ops)))
    {
      if buffer[0] == NUL {
        assert buffer[..][0] == NUL;
        assert Run(ops) == None;
        var defaultError := DEFAULT_ERROR + [NUL];
        for i := 0 to |defaultError|
          invariant buffer[..i] == defaultError[..i] && ops == old(ops)
        {
          buffer[i] := defaultError[i];
        }
        assert buffer[..][..10] == buffer[..11][..10] == DEFAULT_ERROR;
        assert buffer[..][10] == buffer[..11][10] == NUL;
        CTextIs(buffer[..], 10);
      }
      shown := buffer[..];
      ops := ops + [Op.Get];
      assert ops[..|ops| - 1] == old(ops);
    }

    /** `rmw_reset_error`. */
    method Reset()
      requires Valid()
      modifies this`ops, buffer
      ensures Valid() && ops == old(ops) + [Op.Reset]
    {
      buffer[0] := NUL;
      assert buffer[..][0] == NUL;
      ops := ops + [Op.Reset];
      assert ops[..|ops| - 1] == old(ops);
    }
  }
}
