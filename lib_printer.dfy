/** The console `Printer` of the newer generation
    (catkin_tools_fetch/lib/printer.py): a registry of active messages, kept in
    insertion order, and the stream of lines and cursor-up escapes it writes.
    The class-level lock is left out; the printer is modelled sequentially. */
module LibPrinter {
  import opened Strs
  import opened Dicts

  /** One write to standard output: a printed line, or the `"\033[A"` escape
      that moves the cursor one line up. */
  datatype Emit = Line(text: string) | CursorUp

  /** `n` cursor-up escapes. */
  function Ups(n: nat): seq<Emit>
  {
    if n == 0 then [] else Ups(n - 1) + [CursorUp]
  }

  /** `Ups(n)` is exactly `n` escapes and nothing else. */
  lemma {:induction false} UpsSpec(n: nat)
    ensures |Ups(n)| == n && forall i :: 0 <= i < n ==> Ups(n)[i] == CursorUp
  {
    if n > 0 {
      UpsSpec(n - 1);
    }
  }

  /** The active messages of `ks`, in that order, each padded to `width`. */
  function ActiveLines(ks: seq<string>, vals: map<string, string>, width: int): seq<Emit>
    requires forall k :: k in ks ==> k in vals
  {
    if ks == [] then []
    else ActiveLines(ks[..|ks| - 1], vals, width) + [Line(LJust(vals[ks[|ks| - 1]], width))]
  }

  /** One padded line per key, in the order of `ks`, and no cursor move. */
  lemma {:induction false} ActiveLinesSpec(ks: seq<string>, vals: map<string, string>, width: int)
    requires forall k :: k in ks ==> k in vals
    ensures |ActiveLines(ks, vals, width)| == |ks|
    ensures forall i :: 0 <= i < |ks| ==> ActiveLines(ks, vals, width)[i] == Line(LJust(vals[ks[i]], width))
  {
    if ks != [] {
      var init := ks[..|ks| - 1];
      ActiveLinesSpec(init, vals, width);
      forall i | 0 <= i < |ks| - 1 ensures ks[i] == init[i] { }
    }
  }

  class Printer {
    /** `__msgs`: key to message, in insertion order. */
    var msgs: Dict<string>
    /** `__line_length`: the width every printed line is padded to. */
    var lineLength: int
    /** Everything written to standard output so far. */
    var out: seq<Emit>

    ghost predicate Valid()
      reads this
    {
      msgs.Valid()
    }

    /** A printer with no active messages that has written nothing. */
    constructor (lineLength: int := 70)
      ensures Valid() && msgs == Empty() && this.lineLength == lineLength && out == []
    {
      msgs := Empty();
      this.lineLength := lineLength;
      out := [];
    }

    /** Registers `msg` under `key` (replacing an older message, which keeps
        its place) and prints it padded. */
    method AddMsg(key: string, msg: string)
      requires Valid()
      modifies this
      ensures Valid() && lineLength == old(lineLength)
      ensures msgs == old(msgs).Put(key, msg)
      ensures msgs.vals[key] == msg
      ensures forall k :: k != key ==> (k in msgs.vals <==> k in old(msgs.vals))
      ensures forall k :: k != key && k in msgs.vals ==> msgs.vals[k] == old(msgs.vals)[k]
      ensures out == old(out) + [Line(LJust(msg, lineLength))]
    {
      msgs := msgs.Put(key, msg);
      out := out + [Line(LJust(msgs.vals[key], lineLength))];
    }

    /** Prints one message padded, leaving the registry alone. */
    method PrintMsg(msg: string)
      modifies this
      ensures msgs == old(msgs) && lineLength == old(lineLength)
      ensures out == old(out) + [Line(LJust(msg, lineLength))]
    {
      out := out + [Line(LJust(msg, lineLength))];
    }

    /** Moves the cursor back to the top active line, then drops `key` if it
        is registered, prints `lastMsg` there and reprints the remaining
        active messages below it. */
    method PurgeMsg(key: string, lastMsg: string)
      requires Valid()
      modifies this
      ensures Valid() && lineLength == old(lineLength)
      ensures msgs == old(msgs).Remove(key)
      ensures key !in old(msgs.vals) ==> msgs == old(msgs)
      ensures out == old(out) + Ups(|old(msgs.keys)|) + [Line(LJust(lastMsg, lineLength))]
                     + ActiveLines(msgs.keys, msgs.vals, lineLength)
    {
      MoveUp();
      DropMsg(key);
      out := out + [Line(LJust(lastMsg, lineLength))];
      PrintActive(false);
    }

    /** `if key in __msgs: del __msgs[key]`. */
    method DropMsg(key: string)
      requires Valid()
      modifies this
      ensures Valid() && lineLength == old(lineLength) && out == old(out)
      ensures msgs == old(msgs).Remove(key)
      ensures key !in old(msgs.vals) ==> msgs == old(msgs)
    {
      if key in msgs.vals {
        msgs := msgs.Remove(key);
      } else {
        WithoutAbsent(msgs.keys, key);
        assert msgs.vals - {key} == msgs.vals;
      }
    }

    /** `__print_active`: optionally moves up first, then prints every active
        message in registry order. */
    method PrintActive(moveUp: bool)
      requires Valid()
      modifies this
      ensures msgs == old(msgs) && lineLength == old(lineLength)
      ensures out == old(out) + (if moveUp then Ups(|msgs.keys|) else [])
                     + ActiveLines(msgs.keys, msgs.vals, lineLength)
    {
      if moveUp {
        MoveUp();
      }
      ghost var start := out;
      var i := 0;
      while i < |msgs.keys|
        invariant 0 <= i <= |msgs.keys|
        invariant msgs == old(msgs) && lineLength == old(lineLength)
        invariant out == start + ActiveLines(msgs.keys[..i], msgs.vals, lineLength)
      {
        var k := msgs.keys[i];
        assert msgs.keys[..i + 1][..i] == msgs.keys[..i];
        out := out + [Line(LJust(msgs.vals[k], lineLength))];
        i := i + 1;
      }
      assert msgs.keys[..i] == msgs.keys;
    }

    /** `__move_up`: one cursor-up escape per active message. */
    method MoveUp()
      modifies this
      ensures msgs == old(msgs) && lineLength == old(lineLength)
      ensures out == old(out) + Ups(|msgs.keys|)
    {
      var i := 0;
      while i < |msgs.keys|
        invariant 0 <= i <= |msgs.keys|
        invariant msgs == old(msgs) && lineLength == old(lineLength)
        invariant out == old(out) + Ups(i)
      {
        out := out + [CursorUp];
        i := i + 1;
      }
    }
  }
}
