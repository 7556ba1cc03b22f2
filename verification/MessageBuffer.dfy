/** Storage for one message header: a start line in three parts and a list of fields. */
module MessageBuffers {
  import opened Octets
  import opened Buffers
  import opened HeaderGrammar

  class HeaderBuffer {
    const name: ReadWriteBuffer
    const value: ReadWriteBuffer

    constructor (maxName: nat, maxValue: nat)
      ensures fresh(name) && fresh(value) && name != value
      ensures name.Valid() && !name.isStatic && name.capacity == maxName
      ensures value.Valid() && !value.isStatic && value.capacity == maxValue
      ensures name.data == value.data == []
      ensures name.writePos == name.writeEnd == value.writePos == value.writeEnd == 0
    {
      name := new ReadWriteBuffer(maxName);
      value := new ReadWriteBuffer(maxValue);
    }
  }

  /** b stores text, none of which has been written out yet. */
  ghost predicate Stores(b: ReadWriteBuffer, capacity: nat, text: Bytes)
    reads b
  {
    b.Valid() && !b.isStatic && b.capacity == capacity && b.data == text
  }

  ghost predicate Unsent(b: ReadWriteBuffer)
    reads b
  {
    b.writePos == 0 && b.writeEnd == |b.data|
  }

  class MessageBuffer {
    const rules: Rules
    const line1: ReadWriteBuffer
    const line2: ReadWriteBuffer
    const line3: ReadWriteBuffer
    var headers: seq<HeaderBuffer>

    /** The message the buffers spell out. */
    ghost var contents: Message
    ghost var Repr: set<ReadWriteBuffer>

    ghost predicate Valid()
      reads this, Repr
    {
      && line1 in Repr && line2 in Repr && line3 in Repr
      && line1 != line2 && line2 != line3 && line1 != line3
      && Stores(line1, rules.maxLine1, contents.line1)
      && Stores(line2, rules.maxLine2, contents.line2)
      && Stores(line3, rules.maxLine3, contents.line3)
      && |headers| == |contents.fields| <= rules.maxFields
      && (forall i :: 0 <= i < |headers| ==>
            && headers[i].name in Repr - {line1, line2, line3}
            && headers[i].value in Repr - {line1, line2, line3}
            && headers[i].name != headers[i].value
            && Stores(headers[i].name, rules.maxName, contents.fields[i].name)
            && Stores(headers[i].value, rules.maxValue, contents.fields[i].value))
      && (forall i, j :: 0 <= i < j < |headers| ==>
            && headers[i].name != headers[j].name && headers[i].name != headers[j].value
            && headers[i].value != headers[j].name && headers[i].value != headers[j].value)
    }

    ghost predicate AllUnsent()
      requires Valid()
      reads this, Repr
    {
      && Unsent(line1) && Unsent(line2) && Unsent(line3)
      && (forall i :: 0 <= i < |headers| ==> Unsent(headers[i].name) && Unsent(headers[i].value))
    }

    constructor (rules: Rules)
      ensures Valid() && AllUnsent() && fresh(Repr) && this.rules == rules
      ensures contents == Message([], [], [], [])
    {
      this.rules := rules;
      line1 := new ReadWriteBuffer(rules.maxLine1);
      line2 := new ReadWriteBuffer(rules.maxLine2);
      line3 := new ReadWriteBuffer(rules.maxLine3);
      headers := [];
      new;
      contents := Message([], [], [], []);
      Repr := {line1, line2, line3};
    }

    method Reset()
      requires Valid()
      modifies this, line1, line2, line3
      ensures Valid() && AllUnsent() && Repr == old(Repr) && contents == Message([], [], [], [])
    {
      headers := [];
      line1.Reset();
      line2.Reset();
      line3.Reset();
      contents := Message([], [], [], []);
    }

    /** The one-shot printer: the buffers that, gathered, spell the message. It is meant for
        a message of which nothing has been written yet. */
    method GetConstBuffers() returns (buffers: seq<Bytes>)
      requires Valid() && AllUnsent()
      ensures Concat(buffers) == Print(contents)
    {
      hide PrintStart, PrintFields, PrintField, Concat, Valid, AllUnsent;
      SameFields();
      buffers := GatherStart();
      for i := 0 to |headers|
        invariant Concat(buffers) == PrintStart(contents) + PrintFields(contents.fields[..i])
      {
        buffers := GatherField(buffers, i);
        PrintUpTo(contents.fields, i);
      }
      buffers := Put(buffers, ENDLINE);
    }

    lemma SameFields()
      requires Valid()
      ensures |headers| == |contents.fields|
      ensures PrintFields(contents.fields[..0]) == [] && contents.fields[..|headers|] == contents.fields
    {
    }

    method GatherStart() returns (buffers: seq<Bytes>)
      requires Valid() && AllUnsent()
      ensures Concat(buffers) == PrintStart(contents)
    {
      buffers := Gather([], line1);
      buffers := Put(buffers, SPACE);
      buffers := Gather(buffers, line2);
      buffers := Put(buffers, SPACE);
      buffers := Gather(buffers, line3);
      buffers := Put(buffers, ENDLINE);
    }

    method GatherField(buffers: seq<Bytes>, i: nat) returns (more: seq<Bytes>)
      requires Valid() && AllUnsent() && i < |headers|
      ensures Concat(more) == Concat(buffers) + PrintField(contents.fields[i])
    {
      hide Concat;
      more := Gather(buffers, headers[i].name);
      more := Put(more, FIELD_SEP);
      more := Gather(more, headers[i].value);
      more := Put(more, ENDLINE);
    }

    static method Put(buffers: seq<Bytes>, text: Bytes) returns (more: seq<Bytes>)
      ensures more == buffers + [text] && Concat(more) == Concat(buffers) + text
    {
      ConcatMore(buffers, text);
      more := buffers + [text];
    }

    static method Gather(buffers: seq<Bytes>, b: ReadWriteBuffer) returns (more: seq<Bytes>)
      requires b.Valid() && Unsent(b)
      ensures Concat(more) == Concat(buffers) + b.data
    {
      var v := b.GetConstBuffer();
      more := Put(buffers, b.data[v.start..v.start + v.length]);
      assert b.data[0..|b.data|] == b.data;
    }

    method AppendToLine1(bytes: Bytes) returns (ok: bool)
      requires Valid() && AllUnsent()
      modifies this`contents, line1
      ensures Valid() && AllUnsent()
      ensures ok <==> |old(contents.line1)| + |bytes| <= rules.maxLine1
      ensures contents == if ok then old(contents).(line1 := old(contents).line1 + bytes) else old(contents)
    {
      ok := line1.FitsInBuffer(|bytes|);
      if ok {
        line1.AppendFromBuffer(bytes);
        contents := contents.(line1 := contents.line1 + bytes);
      }
    }

    method AppendToLine2(bytes: Bytes) returns (ok: bool)
      requires Valid() && AllUnsent()
      modifies this`contents, line2
      ensures Valid() && AllUnsent()
      ensures ok <==> |old(contents.line2)| + |bytes| <= rules.maxLine2
      ensures contents == if ok then old(contents).(line2 := old(contents).line2 + bytes) else old(contents)
    {
      ok := line2.FitsInBuffer(|bytes|);
      if ok {
        line2.AppendFromBuffer(bytes);
        contents := contents.(line2 := contents.line2 + bytes);
      }
    }

    method AppendToLine3(bytes: Bytes) returns (ok: bool)
      requires Valid() && AllUnsent()
      modifies this`contents, line3
      ensures Valid() && AllUnsent()
      ensures ok <==> |old(contents.line3)| + |bytes| <= rules.maxLine3
      ensures contents == if ok then old(contents).(line3 := old(contents).line3 + bytes) else old(contents)
    {
      ok := line3.FitsInBuffer(|bytes|);
      if ok {
        line3.AppendFromBuffer(bytes);
        contents := contents.(line3 := contents.line3 + bytes);
      }
    }

    /** Appends an empty field. The buffers come from a pool; here they are new. */
    method AddField()
      requires Valid() && AllUnsent() && |headers| < rules.maxFields
      modifies this`headers, this`contents, this`Repr
      ensures Valid() && AllUnsent() && fresh(Repr - old(Repr)) && old(Repr) <= Repr
      ensures contents == old(contents).(fields := old(contents).fields + [Field([], [])])
    {
      var h := new HeaderBuffer(rules.maxName, rules.maxValue);
      headers := headers + [h];
      Repr := Repr + {h.name, h.value};
      contents := contents.(fields := contents.fields + [Field([], [])]);
    }

    method AppendToName(n: nat, bytes: Bytes) returns (ok: bool)
      requires Valid() && AllUnsent() && n < |headers|
      modifies this`contents, headers[n].name
      ensures Valid() && AllUnsent()
      ensures ok <==> |old(contents).fields[n].name| + |bytes| <= rules.maxName
      ensures contents == if ok then old(contents).(fields := old(contents).fields[n :=
        old(contents).fields[n].(name := old(contents).fields[n].name + bytes)]) else old(contents)
    {
      ok := headers[n].name.FitsInBuffer(|bytes|);
      if ok {
        headers[n].name.AppendFromBuffer(bytes);
        contents := contents.(fields := contents.fields[n :=
          contents.fields[n].(name := contents.fields[n].name + bytes)]);
      }
    }

    method AppendToValue(n: nat, bytes: Bytes) returns (ok: bool)
      requires Valid() && AllUnsent() && n < |headers|
      modifies this`contents, headers[n].value
      ensures Valid() && AllUnsent()
      ensures ok <==> |old(contents).fields[n].value| + |bytes| <= rules.maxValue
      ensures contents == if ok then old(contents).(fields := old(contents).fields[n :=
        old(contents).fields[n].(value := old(contents).fields[n].value + bytes)]) else old(contents)
    {
      ok := headers[n].value.FitsInBuffer(|bytes|);
      if ok {
        headers[n].value.AppendFromBuffer(bytes);
        contents := contents.(fields := contents.fields[n :=
          contents.fields[n].(value := contents.fields[n].value + bytes)]);
      }
    }
  }
}
