/** The EQ configuration `{mode, sliders: [{id, label, bands: [{freq, width}], scale}]}`
    and the edits the equalizer panels make to it (src/components/Equalizer/GenericEq.jsx
    and src/components/Equalizer/CustomEq.jsx). Every edit is a pure list transform:
    the new configuration is built with the other fields spread in unchanged. */
module EqConfig {
  import opened Optional

  /** A sub-range of a band: centre frequency and width, both in Hz. */
  datatype BandRange = BandRange(freq: real, width: real)

  /** `title` is the source's `label` field (a reserved word here). */
  datatype Slider = Slider(id: string, title: string, bands: seq<BandRange>, scale: real)

  /** `mode` is absent in the initial configuration `{sliders: []}`. */
  datatype EqSettings = EqSettings(mode: Option<string>, sliders: seq<Slider>)

  /** The slider field an edit targets. */
  datatype Field = ScaleField | FreqField | WidthField

  const DefaultFreq: real := 1000.0
  const DefaultWidth: real := 500.0

  predicate UniqueIds(sliders: seq<Slider>) {
    forall i, j :: 0 <= i < j < |sliders| ==> sliders[i].id != sliders[j].id
  }

  function Ids(sliders: seq<Slider>): (ids: set<string>)
    ensures forall i :: 0 <= i < |sliders| ==> sliders[i].id in ids
    ensures forall id :: id in ids ==> exists i :: 0 <= i < |sliders| && sliders[i].id == id
  {
    set i | 0 <= i < |sliders| :: sliders[i].id
  }

  // ---------------------------------------------------------------------------
  // updateSlider (src/components/Equalizer/GenericEq.jsx:13-26)

  /** Band edits need a first band to copy the other field from; the generic
      panel renders `bands[0]` of every slider, so every slider it edits has one. */
  predicate Editable(sliders: seq<Slider>, id: string, field: Field) {
    field != ScaleField ==> forall i :: 0 <= i < |sliders| && sliders[i].id == id ==> |sliders[i].bands| >= 1
  }

  function EditSlider(slider: Slider, field: Field, value: real): Slider
    requires field != ScaleField ==> |slider.bands| >= 1
  {
    match field
    case ScaleField => slider.(scale := value)
    case FreqField => slider.(bands := [slider.bands[0].(freq := value)])
    case WidthField => slider.(bands := [slider.bands[0].(width := value)])
  }

  /** Edits every slider with the given id. A scale edit replaces only `scale`; a
      frequency or width edit replaces `bands` by the single band `bands[0]` with
      that field changed, dropping any further sub-ranges. */
  function UpdateSlider(settings: EqSettings, id: string, field: Field, value: real): (r: EqSettings)
    requires Editable(settings.sliders, id, field)
    ensures r.mode == settings.mode
    ensures |r.sliders| == |settings.sliders|
    ensures forall i :: 0 <= i < |r.sliders| && settings.sliders[i].id != id ==>
              r.sliders[i] == settings.sliders[i]
    ensures forall i :: 0 <= i < |r.sliders| && settings.sliders[i].id == id ==>
              var before := settings.sliders[i];
              var after := r.sliders[i];
              && after.id == id && after.title == before.title
              && (field == ScaleField ==> after.scale == value && after.bands == before.bands)
              && (field == FreqField ==>
                    after.scale == before.scale && after.bands == [BandRange(value, before.bands[0].width)])
              && (field == WidthField ==>
                    after.scale == before.scale && after.bands == [BandRange(before.bands[0].freq, value)])
  {
    var sliders := settings.sliders;
    settings.(sliders := seq(|sliders|, i requires 0 <= i < |sliders| =>
      if sliders[i].id != id then sliders[i] else EditSlider(sliders[i], field, value)))
  }

  /** An edit keeps the ids, so it keeps them unique. */
  lemma UpdateKeepsIds(settings: EqSettings, id: string, field: Field, value: real)
    requires Editable(settings.sliders, id, field)
    ensures Ids(UpdateSlider(settings, id, field, value).sliders) == Ids(settings.sliders)
    ensures UniqueIds(settings.sliders) ==> UniqueIds(UpdateSlider(settings, id, field, value).sliders)
  {
    var r := UpdateSlider(settings, id, field, value).sliders;
    assert forall i :: 0 <= i < |r| ==> r[i].id == settings.sliders[i].id;
  }

  /** Making the same edit twice is the same as making it once. */
  lemma UpdateIdempotent(settings: EqSettings, id: string, field: Field, value: real)
    requires Editable(settings.sliders, id, field)
    ensures Editable(UpdateSlider(settings, id, field, value).sliders, id, field)
    ensures UpdateSlider(UpdateSlider(settings, id, field, value), id, field, value)
         == UpdateSlider(settings, id, field, value)
  {
    var once := UpdateSlider(settings, id, field, value);
    var twice := UpdateSlider(once, id, field, value);
    assert twice.sliders == once.sliders;
  }

  // ---------------------------------------------------------------------------
  // addSlider (src/components/Equalizer/GenericEq.jsx:28-36)

  /** Decimal digits of n, most significant first, as a template literal prints it. */
  function NatToString(n: nat): (s: string)
    ensures |s| >= 1
    ensures forall i :: 0 <= i < |s| ==> '0' <= s[i] <= '9'
    decreases n
  {
    if n < 10 then [DigitChar(n)] else NatToString(n / 10) + [DigitChar(n % 10)]
  }

  function DigitChar(d: nat): (c: char)
    requires d < 10
    ensures '0' <= c <= '9'
  {
    ['0', '1', '2', '3', '4', '5', '6', '7', '8', '9'][d]
  }

  function DigitValue(c: char): nat
    requires '0' <= c <= '9'
  {
    if c == '0' then 0 else if c == '1' then 1 else if c == '2' then 2 else if c == '3' then 3
    else if c == '4' then 4 else if c == '5' then 5 else if c == '6' then 6 else if c == '7' then 7
    else if c == '8' then 8 else 9
  }

  /** Reads a string of decimal digits back as a number. */
  function ParseDigits(s: string): nat
    requires forall i :: 0 <= i < |s| ==> '0' <= s[i] <= '9'
  {
    if |s| == 0 then 0 else 10 * ParseDigits(s[..|s| - 1]) + DigitValue(s[|s| - 1])
  }

  /** The printed number reads back as itself, and has no leading zero. */
  lemma {:induction false} NatToStringRoundTrip(n: nat)
    ensures ParseDigits(NatToString(n)) == n
    ensures n > 0 ==> NatToString(n)[0] != '0'
    decreases n
  {
    var s := NatToString(n);
    if n >= 10 {
      NatToStringRoundTrip(n / 10);
      assert s[..|s| - 1] == NatToString(n / 10);
      assert s[0] == NatToString(n / 10)[0];
    }
  }

  /** The slider addSlider appends: a fresh id, label "Band <count + 1>",
      one band at 1000 Hz with width 500 Hz, and unity scale. */
  function NewSlider(freshId: string, count: nat): Slider {
    Slider(freshId, "Band " + NatToString(count + 1), [BandRange(DefaultFreq, DefaultWidth)], 1.0)
  }

  /** Appends one slider. The random UUID of the source is the parameter `freshId`. */
  function AddSlider(settings: EqSettings, freshId: string): (r: EqSettings)
    ensures r.mode == settings.mode
    ensures |r.sliders| == |settings.sliders| + 1
    ensures r.sliders[..|settings.sliders|] == settings.sliders
    ensures r.sliders[|settings.sliders|] == NewSlider(freshId, |settings.sliders|)
  {
    settings.(sliders := settings.sliders + [NewSlider(freshId, |settings.sliders|)])
  }

  /** A fresh id keeps the ids unique. */
  lemma AddKeepsUniqueIds(settings: EqSettings, freshId: string)
    requires UniqueIds(settings.sliders) && freshId !in Ids(settings.sliders)
    ensures UniqueIds(AddSlider(settings, freshId).sliders)
    ensures Ids(AddSlider(settings, freshId).sliders) == Ids(settings.sliders) + {freshId}
  {
    var r := AddSlider(settings, freshId).sliders;
    forall i, j | 0 <= i < j < |r|
      ensures r[i].id != r[j].id
    {
      if j == |settings.sliders| {
        assert r[i] == settings.sliders[i];
      }
    }
  }

  // ---------------------------------------------------------------------------
  // removeSlider (src/components/Equalizer/GenericEq.jsx:38-41)

  /** The sliders whose id differs from `id`, in their original order. */
  function WithoutId(sliders: seq<Slider>, id: string): (kept: seq<Slider>)
    ensures |kept| <= |sliders|
    ensures forall i :: 0 <= i < |kept| ==> kept[i].id != id
    ensures forall s :: s in kept ==> s in sliders
    ensures forall s :: s in sliders && s.id != id ==> s in kept
  {
    if |sliders| == 0 then []
    else if sliders[|sliders| - 1].id == id then WithoutId(sliders[..|sliders| - 1], id)
    else WithoutId(sliders[..|sliders| - 1], id) + [sliders[|sliders| - 1]]
  }

  /** Filtering distributes over concatenation, so the kept sliders stay in order. */
  lemma {:induction false} WithoutIdAppend(a: seq<Slider>, b: seq<Slider>, id: string)
    ensures WithoutId(a + b, id) == WithoutId(a, id) + WithoutId(b, id)
    decreases |b|
  {
    if |b| > 0 {
      var last := b[|b| - 1];
      assert (a + b)[..|a + b| - 1] == a + b[..|b| - 1];
      WithoutIdAppend(a, b[..|b| - 1], id);
    } else {
      assert a + b == a;
    }
  }

  /** With no slider of that id, nothing is removed. */
  lemma {:induction false} WithoutAbsentId(sliders: seq<Slider>, id: string)
    requires forall i :: 0 <= i < |sliders| ==> sliders[i].id != id
    ensures WithoutId(sliders, id) == sliders
    decreases |sliders|
  {
    if |sliders| > 0 {
      WithoutAbsentId(sliders[..|sliders| - 1], id);
      assert sliders[..|sliders| - 1] + [sliders[|sliders| - 1]] == sliders;
    }
  }

  /** Removes every slider with the given id and keeps the rest in order. */
  function RemoveSlider(settings: EqSettings, id: string): (r: EqSettings)
    ensures r.mode == settings.mode
    ensures forall i :: 0 <= i < |r.sliders| ==> r.sliders[i].id != id
    ensures forall s :: s in settings.sliders && s.id != id ==> s in r.sliders
    ensures forall s :: s in r.sliders ==> s in settings.sliders
  {
    settings.(sliders := WithoutId(settings.sliders, id))
  }

  /** Removing an id that no slider has changes nothing. */
  lemma RemoveAbsentId(settings: EqSettings, id: string)
    requires id !in Ids(settings.sliders)
    ensures RemoveSlider(settings, id) == settings
  {
    WithoutAbsentId(settings.sliders, id);
  }

  /** Removing a just-added slider undoes the add. */
  lemma RemoveUndoesAdd(settings: EqSettings, freshId: string)
    requires freshId !in Ids(settings.sliders)
    ensures RemoveSlider(AddSlider(settings, freshId), freshId) == settings
  {
    var s := settings.sliders;
    WithoutIdAppend(s, [NewSlider(freshId, |s|)], freshId);
    WithoutAbsentId(s, freshId);
    assert WithoutId([NewSlider(freshId, |s|)], freshId) == [];
  }

  /** Removing keeps the remaining ids unique. */
  lemma {:induction false} WithoutIdKeepsUniqueIds(sliders: seq<Slider>, id: string)
    requires UniqueIds(sliders)
    ensures UniqueIds(WithoutId(sliders, id))
    decreases |sliders|
  {
    if |sliders| > 0 {
      var init := sliders[..|sliders| - 1];
      var last := sliders[|sliders| - 1];
      WithoutIdKeepsUniqueIds(init, id);
      if last.id != id {
        var kept := WithoutId(init, id);
        forall i | 0 <= i < |kept|
          ensures kept[i].id != last.id
        {
          assert kept[i] in init;
        }
      }
    }
  }

  // ---------------------------------------------------------------------------
  // handleSliderChange (src/components/Equalizer/CustomEq.jsx:9-14)

  /** The preset panel's slider reports its value as a one-element array; the
      slider with the matching id takes element 0 as its new scale. */
  function HandleSliderChange(settings: EqSettings, id: string, newValue: seq<real>): (r: EqSettings)
    requires |newValue| >= 1
    ensures r.mode == settings.mode
    ensures |r.sliders| == |settings.sliders|
    ensures forall i :: 0 <= i < |r.sliders| ==>
              var before := settings.sliders[i];
              && r.sliders[i].id == before.id
              && r.sliders[i].title == before.title
              && r.sliders[i].bands == before.bands
              && r.sliders[i].scale == (if before.id == id then newValue[0] else before.scale)
  {
    var sliders := settings.sliders;
    settings.(sliders := seq(|sliders|, i requires 0 <= i < |sliders| =>
      if sliders[i].id == id then sliders[i].(scale := newValue[0]) else sliders[i]))
  }

  /** The preset panel's change is the generic panel's scale edit. */
  lemma SliderChangeIsScaleEdit(settings: EqSettings, id: string, newValue: seq<real>)
    requires |newValue| >= 1
    ensures HandleSliderChange(settings, id, newValue) == UpdateSlider(settings, id, ScaleField, newValue[0])
  {
    assert HandleSliderChange(settings, id, newValue).sliders
        == UpdateSlider(settings, id, ScaleField, newValue[0]).sliders;
  }
}
