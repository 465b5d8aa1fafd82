/** The records of `types.ts`. */
module Types {
  import opened Util

  /** One fingering of a chord: six strings, -1 muted and 0 open. */
  datatype ChordPosition = ChordPosition(
    frets: seq<int>,
    fingers: seq<int>,
    baseFret: int,
    barres: Option<seq<int>>)

  datatype Difficulty = Basic | Intermediate | Advanced

  datatype ChordType = Open | Barre | Power

  datatype Chord = Chord(
    id: string,
    key: string,
    suffix: string,
    name: string,
    difficulty: Difficulty,
    chordType: ChordType,
    positions: seq<ChordPosition>)

  /** A practice session before the history store gives it an id. */
  datatype SessionDraft = SessionDraft(
    date: string,
    chordA: string,
    chordB: string,
    bpm: int,
    count: int,
    durationSeconds: int)
  {
    function WithId(id: string): (s: PracticeSession)
      ensures s.id == id && s.Draft() == this
    {
      PracticeSession(id, date, chordA, chordB, bpm, count, durationSeconds)
    }
  }

  datatype PracticeSession = PracticeSession(
    id: string,
    date: string,
    chordA: string,
    chordB: string,
    bpm: int,
    count: int,
    durationSeconds: int)
  {
    /** Everything but the id. */
    function Draft(): SessionDraft
    {
      SessionDraft(date, chordA, chordB, bpm, count, durationSeconds)
    }
  }

  datatype TimeSignature = FourFour | ThreeFour | SixEight | TwoFour
  {
    /** The literal the UI stores, such as "4/4". */
    function Text(): string
    {
      match this
      case FourFour => "4/4"
      case ThreeFour => "3/4"
      case SixEight => "6/8"
      case TwoFour => "2/4"
    }
  }
}
