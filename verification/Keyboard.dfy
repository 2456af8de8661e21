/** The keyboard: interrupt handler and reader on one ring, under a spinlock. */
module Keyboard {
  import opened Common

  /** The processor's interrupt flag. */
  class Cpu {
    var interrupts: bool
  }

  /** A spinlock. Lock's callers find it free, as the lock discipline shows, so its exchange is
      final and no spin loop is needed. */
  class Spinlock {
    var taken: bool

    method Lock()
      requires !taken
      modifies this
      ensures taken
    {
      taken := true;
    }

    method Unlock()
      modifies this
      ensures !taken
    {
      taken := false;
    }

    method LockIRQ(cpu: Cpu) returns (saved: bool)
      requires !taken
      modifies this, cpu
      ensures taken && !cpu.interrupts && saved == old(cpu.interrupts)
    {
      saved := cpu.interrupts;
      cpu.interrupts := false;
      Lock();
    }

    method UnlockIRQ(cpu: Cpu, saved: bool)
      modifies this, cpu
      ensures !taken && cpu.interrupts == (old(cpu.interrupts) || saved)
    {
      Unlock();
      if saved {
        cpu.interrupts := true;
      }
    }
  }

  // ---------- scancodes ----------

  const BUFFER_SIZE: nat := 256
  const CAPACITY: nat := BUFFER_SIZE - 1
  const BREAK: nat := 0x80
  const SHIFT_DOWN: nat := 0x2A
  const SHIFT_UP: nat := 0xAA

  /** A key map: the digit row, the three rows of letters, and the keys around them that shift does
      not change, in the order of the make codes. */
  function KeyMap(digits: string, upper: string, home: string, lower: string): string {
    var around := "\0*\0 " + seq(0x10, _ => '\0') + "-\0\0\0+";
    "\0\U{001B}" + digits + "\U{0008}\t" + upper + "\n\0" + home + "\0" + lower + around
  }

  const KEYS: string := KeyMap("1234567890-=", "qwertyuiop[]", "asdfghjkl;'`", "\\zxcvbnm,./")
  const SHIFTED_KEYS: string := KeyMap("!@#$%^&*()_+", "QWERTYUIOP{}", "ASDFGHJKL:\"~", "|ZXCVBNM<>?")

  /** The character of a make code; '\0' for none. */
  function KeyOf(shift: bool, code: nat): char {
    var keys := if shift then SHIFTED_KEYS else KEYS;
    if code < |keys| then keys[code] else '\0'
  }

  /** The keyboard as it lies on the desk: `c` is on the key of this code. */
  ghost predicate Types(shift: bool, code: nat, c: char) {
    || (0x02 <= code <= 0x0D && c == (if shift then "!@#$%^&*()_+" else "1234567890-=")[code - 0x02])
    || (0x10 <= code <= 0x1B && c == (if shift then "QWERTYUIOP{}" else "qwertyuiop[]")[code - 0x10])
    || (0x1E <= code <= 0x29 && c == (if shift then "ASDFGHJKL:\"~" else "asdfghjkl;'`")[code - 0x1E])
    || (0x2B <= code <= 0x35 && c == (if shift then "|ZXCVBNM<>?" else "\\zxcvbnm,./")[code - 0x2B])
    || (code == 0x01 && c == '\U{001B}')
    || (code == 0x0E && c == '\U{0008}')
    || (code == 0x0F && c == '\t')
    || (code == 0x1C && c == '\n')
    || (code == 0x37 && c == '*')
    || (code == 0x39 && c == ' ')
    || (code == 0x4A && c == '-')
    || (code == 0x4E && c == '+')
  }

  /** Control, the shift keys, the function keys, the arrows and the like, and every released key. */
  ghost predicate TypesNothing(code: nat) {
    || code in {0x00, 0x1D, 0x2A, 0x36, 0x38}
    || 0x3A <= code <= 0x49 || 0x4B <= code <= 0x4D || 0x4F <= code
  }

  lemma RowsOf(digits: string, upper: string, home: string, lower: string, code: nat)
    requires |digits| == |upper| == |home| == 12 && |lower| == 11
    ensures var keys := KeyMap(digits, upper, home, lower);
      && |keys| == 0x4F
      && (0x02 <= code <= 0x0D ==> keys[code] == digits[code - 0x02])
      && (0x10 <= code <= 0x1B ==> keys[code] == upper[code - 0x10])
      && (0x1E <= code <= 0x29 ==> keys[code] == home[code - 0x1E])
      && (0x2B <= code <= 0x35 ==> keys[code] == lower[code - 0x2B])
      && (TypesNothing(code) && code < 0x4F ==> keys[code] == '\0')
      && keys[0x01] == '\U{001B}' && keys[0x0E] == '\U{0008}' && keys[0x0F] == '\t' && keys[0x1C] == '\n'
      && keys[0x37] == '*' && keys[0x39] == ' ' && keys[0x4A] == '-' && keys[0x4E] == '+'
  {
  }

  /** The two tables hold the characters of the keys, the second those with shift. */
  lemma TablesAreKeyboard(shift: bool, code: nat)
    ensures TypesNothing(code) ==> KeyOf(shift, code) == '\0'
    ensures !TypesNothing(code) ==> KeyOf(shift, code) != '\0' && Types(shift, code, KeyOf(shift, code))
  {
    hide KeyMap;
    if shift {
      RowsOf("!@#$%^&*()_+", "QWERTYUIOP{}", "ASDFGHJKL:\"~", "|ZXCVBNM<>?", code);
    } else {
      RowsOf("1234567890-=", "qwertyuiop[]", "asdfghjkl;'`", "\\zxcvbnm,./", code);
    }
  }

  lemma OneCharacter(shift: bool, code: nat, c: char, d: char)
    requires Types(shift, code, c) && Types(shift, code, d)
    ensures c == d && !TypesNothing(code)
  {
  }

  // ---------- the bounded queue ----------

  /** What the driver stands for: a queue of at most 255 characters, and the shift key. */
  datatype State = State(queue: string, shift: bool)

  /** A scancode arrives; a character finds its place at the end of the queue unless it is full. */
  function Scan(s: State, code: nat): State {
    if code < BREAK then
      var c := KeyOf(s.shift, code);
      if c != '\0' && |s.queue| < CAPACITY then State(s.queue + [c], s.shift)
      else State(s.queue, code == SHIFT_DOWN || s.shift)
    else State(s.queue, code != SHIFT_UP && s.shift)
  }

  datatype Event = Key(code: nat) | Read

  function Apply(s: State, e: Event): State {
    match e
    case Key(code) => Scan(s, code)
    case Read => if s.queue == [] then s else State(s.queue[1..], s.shift)
  }

  function Run(s: State, es: seq<Event>): State
    decreases |es|
  {
    if es == [] then s else Run(Apply(s, es[0]), es[1..])
  }

  /** The character that a reader gets in this event, if any. */
  function Got(s: State, e: Event): string {
    if e.Read? && s.queue != [] then [s.queue[0]] else []
  }

  /** The character that is typed in this event while the queue has room, if any. */
  function Typed(s: State, e: Event): string {
    if e.Key? && e.code < BREAK && KeyOf(s.shift, e.code) != '\0' && |s.queue| < CAPACITY
    then [KeyOf(s.shift, e.code)]
    else []
  }

  function Delivered(s: State, es: seq<Event>): string
    decreases |es|
  {
    if es == [] then [] else Got(s, es[0]) + Delivered(Apply(s, es[0]), es[1..])
  }

  function Accepted(s: State, es: seq<Event>): string
    decreases |es|
  {
    if es == [] then [] else Typed(s, es[0]) + Accepted(Apply(s, es[0]), es[1..])
  }

  lemma OneEvent(s: State, e: Event)
    requires |s.queue| <= CAPACITY
    ensures Got(s, e) + Apply(s, e).queue == s.queue + Typed(s, e) && |Apply(s, e).queue| <= CAPACITY
  {
    hide KeyOf;
  }

  /** First in, first out, nothing lost and nothing twice: what has been delivered, followed by what
      still waits, is what waited at first, followed by what was accepted. */
  lemma {:induction false} FirstInFirstOut(s: State, es: seq<Event>)
    requires |s.queue| <= CAPACITY
    ensures Delivered(s, es) + Run(s, es).queue == s.queue + Accepted(s, es)
    ensures |Run(s, es).queue| <= CAPACITY
    decreases |es|
  {
    hide Got, Typed, Apply;
    if es != [] {
      var s' := Apply(s, es[0]);
      OneEvent(s, es[0]);
      FirstInFirstOut(s', es[1..]);
      var got, typed, rest := Got(s, es[0]), Typed(s, es[0]), Accepted(s', es[1..]);
      assert got + (Delivered(s', es[1..]) + Run(s, es).queue) == (got + s'.queue) + rest;
      assert (s.queue + typed) + rest == s.queue + (typed + rest);
    }
  }

  /** The last of the shift key's codes in the run; `before` if there is none. */
  function LastShift(es: seq<Event>, before: bool): bool {
    if es == [] then before
    else
      var e := es[|es| - 1];
      if e == Key(SHIFT_DOWN) then true
      else if e == Key(SHIFT_UP) then false
      else LastShift(es[..|es| - 1], before)
  }

  lemma {:induction false} RunSnoc(s: State, es: seq<Event>)
    requires es != []
    ensures Run(s, es) == Apply(Run(s, es[..|es| - 1]), es[|es| - 1])
    decreases |es|
  {
    hide Apply;
    if |es| > 1 {
      assert es[..|es| - 1][1..] == es[1..][..|es| - 2];
      RunSnoc(Apply(s, es[0]), es[1..]);
    }
  }

  /** Whatever else is typed, and however full the queue is, the driver knows whether the left shift
      key is down. */
  lemma {:induction false} ShiftIsTracked(s: State, es: seq<Event>)
    ensures Run(s, es).shift == LastShift(es, s.shift)
    decreases |es|
  {
    hide KeyOf, Types;
    if es != [] {
      assert TypesNothing(SHIFT_DOWN);
      var front := es[..|es| - 1];
      RunSnoc(s, es);
      ShiftIsTracked(s, front);
      TablesAreKeyboard(Run(s, front).shift, SHIFT_DOWN);
    }
  }

  // ---------- the ring ----------

  /** The characters of the ring, from the tail up to the head. */
  function RingQueue(buffer: string, head: nat, tail: nat): (q: string)
    requires |buffer| == BUFFER_SIZE && head < BUFFER_SIZE && tail < BUFFER_SIZE
    ensures |q| == if tail <= head then head - tail else BUFFER_SIZE - tail + head
    ensures forall k :: 0 <= k < |q| ==> q[k] == buffer[if tail + k < BUFFER_SIZE then tail + k else tail + k - BUFFER_SIZE]
  {
    if tail <= head then buffer[tail..head] else buffer[tail..] + buffer[..head]
  }

  function Next(i: nat): (j: nat)
    ensures i < BUFFER_SIZE ==> j == if i + 1 < BUFFER_SIZE then i + 1 else 0
  {
    (i + 1) % BUFFER_SIZE
  }

  /** The handler's test is that the queue has room. */
  lemma RingPush(buffer: string, head: nat, tail: nat, c: char)
    requires |buffer| == BUFFER_SIZE && head < BUFFER_SIZE && tail < BUFFER_SIZE
    ensures Next(head) != tail <==> |RingQueue(buffer, head, tail)| < CAPACITY
    ensures Next(head) != tail ==> RingQueue(buffer[head := c], Next(head), tail) == RingQueue(buffer, head, tail) + [c]
  {
    hide RingQueue, Next;
  }

  lemma RingPop(buffer: string, head: nat, tail: nat)
    requires |buffer| == BUFFER_SIZE && head < BUFFER_SIZE && tail < BUFFER_SIZE
    ensures head == tail <==> RingQueue(buffer, head, tail) == []
    ensures head != tail ==>
      && RingQueue(buffer, head, tail)[0] == buffer[tail]
      && RingQueue(buffer, head, Next(tail)) == RingQueue(buffer, head, tail)[1..]
  {
    hide RingQueue, Next;
  }

  // ---------- the driver ----------

  class Controller {
    const lock: Spinlock
    const buffer: array<char>
    var head: nat
    var tail: nat
    var shift: bool

    ghost predicate Valid()
      reads this
    {
      buffer.Length == BUFFER_SIZE && head < BUFFER_SIZE && tail < BUFFER_SIZE
    }

    function Queue(): string
      requires Valid()
      reads this, buffer
    {
      RingQueue(buffer[..], head, tail)
    }

    ghost function Value(): State
      requires Valid()
      reads this, buffer
    {
      State(Queue(), shift)
    }

    constructor ()
      ensures Valid() && Value() == State([], false) && !lock.taken
      ensures fresh(lock) && fresh(buffer)
    {
      lock := new Spinlock;
      buffer := new char[BUFFER_SIZE](_ => '\0');
      head, tail, shift := 0, 0, false;
      new;
      lock.taken := false;
    }

    /** IOKeyboardInterruptsHandler, which runs with interrupts off. */
    method HandleInterrupt(scancode: nat)
      requires Valid() && !lock.taken && scancode < 256
      modifies this, buffer, lock
      ensures Valid() && !lock.taken && Value() == Scan(old(Value()), scancode)
      ensures shift == (scancode == 0x2A || (old(shift) && scancode != 0xAA))
      ensures TypesNothing(scancode) || old(|Queue()|) >= 255 ==> Queue() == old(Queue())
      ensures forall c :: Types(old(shift), scancode, c) && old(|Queue()|) < 255 ==> Queue() == old(Queue()) + [c]
    {
      hide KeyOf, RingQueue, Types;
      TablesAreKeyboard(shift, scancode);
      forall c | Types(shift, scancode, c) ensures c == KeyOf(shift, scancode) && !TypesNothing(scancode) {
        OneCharacter(shift, scancode, c, c);
        OneCharacter(shift, scancode, c, KeyOf(shift, scancode));
      }
      lock.Lock();
      var nextHead := Next(head);
      if scancode < BREAK {
        var ascii := KeyOf(shift, scancode);
        RingPush(buffer[..], head, tail, ascii);
        if ascii != '\0' && nextHead != tail {
          buffer[head] := ascii;
          head := nextHead;
        } else if scancode == SHIFT_DOWN {
          shift := true;
        }
      } else if scancode == SHIFT_UP {
        shift := false;
      }
      lock.Unlock();
    }

    /** One turn of IOKeyboardGetCharacter; None when it goes on to wait, with interrupts enabled. */
    method TryGetCharacter(cpu: Cpu) returns (c: Option<char>)
      requires Valid() && !lock.taken
      modifies this, lock, cpu
      ensures Valid() && !lock.taken && Value() == Apply(old(Value()), Read)
      ensures c == if old(Queue()) == [] then None else Some(old(Queue())[0])
      ensures cpu.interrupts == (c.None? || old(cpu.interrupts))
    {
      hide RingQueue;
      var saved := lock.LockIRQ(cpu);
      RingPop(buffer[..], head, tail);
      if head != tail {
        c := Some(buffer[tail]);
        tail := Next(tail);
        lock.UnlockIRQ(cpu, saved);
        return;
      }
      lock.UnlockIRQ(cpu, saved);
      cpu.interrupts := true;
      c := None;
    }
  }
}
