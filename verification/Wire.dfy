/** One turn of a transmit loop and one turn of a receive loop, as relations on the bytes
    in the rings and on the link.  The classes are proved to take exactly these steps; the
    theorems about whole runs are proved of these steps. */
module Wire {
  import opened Bytes
  import opened Frame
  import opened StreamerModule

  /** A call of `send` in the middle of a frame: of the unwritten bytes `rest` the ring
      takes the first `n`, and then as much as fits goes on to the link.  Something is
      taken whenever the ring has room. */
  ghost predicate Sent(n: nat, rest: seq<byte>, tx: seq<byte>, link: seq<byte>,
                       rest': seq<byte>, tx': seq<byte>, link': seq<byte>)
  {
    && n <= |rest| && n <= RING_SIZE - |tx|
    && (rest != [] && |tx| < RING_SIZE ==> n > 0)
    && rest' == rest[n..]
    && Flushed(tx + rest[..n], link, tx', link')
  }

  /** A call of `receive` on a host of byte order o, in the middle of a frame of which `acc`
      has been consumed: what the ring can hold is fetched, and `acc` and those bytes
      together are decoded. */
  ghost predicate Received(o: Endian, acc: seq<byte>, rx: seq<byte>, link: seq<byte>,
                           acc': seq<byte>, rx': seq<byte>, link': seq<byte>, out: Option<Message>)
    requires |rx| <= RING_SIZE
  {
    var avail := Filled(rx, link);
    && |link'| <= |link| && |rx'| <= RING_SIZE
    && match Parse(o, acc + avail)
       case None =>
         out == None && acc' == acc + avail && rx' + link' == (rx + link)[|avail|..]
       case Some((m, n)) =>
         && |acc| < n <= |acc| + |avail|
         && out == Some(m) && acc' == [] && rx' + link' == (rx + link)[n - |acc|..]
  }
}
