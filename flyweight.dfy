/**
 * The lawnmower store: each lawnmower is only a serial number, and every
 * lawnmower of a series shares the one series object holding the series'
 * data. Registering a lawnmower stores its serial number and (re)places the
 * series object of its series.
 */
module FlyweightLawnmowers {
  import opened Wrappers

  /** `LawnmowerSeriesData`; weights and prices are JavaScript numbers, modelled as reals. */
  datatype LawnmowerSeriesData = LawnmowerSeriesData(
    id: string, model: string, manufacturer: string, weight: real, price: real, picture: string)

  /** `FlyweightLawnmowerSeries`: the shared, read-only series object. */
  class FlyweightLawnmowerSeries {
    const data: LawnmowerSeriesData

    constructor(data: LawnmowerSeriesData)
      ensures this.data == data
    {
      this.data := data;
    }
  }

  /** `Lawnmower`: a serial number and the series object it shares; its getters read through to the series. */
  class Lawnmower {
    const serialNumber: string
    const series: FlyweightLawnmowerSeries

    constructor(serialNumber: string, series: FlyweightLawnmowerSeries)
      ensures this.serialNumber == serialNumber && this.series == series
    {
      this.serialNumber := serialNumber;
      this.series := series;
    }

    function Manufacturer(): (r: string)
      ensures r == series.data.manufacturer
    {
      series.data.manufacturer
    }

    function Model(): (r: string)
      ensures r == series.data.model
    {
      series.data.model
    }

    function Weight(): (r: real)
      ensures r == series.data.weight
    {
      series.data.weight
    }

    function Price(): (r: real)
      ensures r == series.data.price
    {
      series.data.price
    }

    function Picture(): (r: string)
      ensures r == series.data.picture
    {
      series.data.picture
    }
  }

  /**
   * What `getLawnmower` finds in a store with these serial numbers and
   * series data: the serial number with its series' data when the serial
   * number is registered and the series is known, nothing otherwise.
   */
  function Lookup(serials: set<string>, series: map<string, LawnmowerSeriesData>,
                  serialNumber: string, seriesID: string): (r: Option<(string, LawnmowerSeriesData)>)
    ensures r.Some? <==> serialNumber in serials && seriesID in series
    ensures r.Some? ==> r.value == (serialNumber, series[seriesID])
  {
    if serialNumber !in serials then None
    else if seriesID !in series then None
    else Some((serialNumber, series[seriesID]))
  }

  /** The store's state after `setLawnmower`. */
  function Register(serials: set<string>, series: map<string, LawnmowerSeriesData>,
                    serialNumber: string, data: LawnmowerSeriesData): (set<string>, map<string, LawnmowerSeriesData>)
  {
    (serials + {serialNumber}, series[data.id := data])
  }

  class LawnmowerStore {
    var serialNumbers: set<string>
    var seriesMap: map<string, FlyweightLawnmowerSeries>

    constructor()
      ensures serialNumbers == {} && seriesMap == map[]
    {
      serialNumbers := {};
      seriesMap := map[];
    }

    /** The data of each known series. */
    ghost function SeriesData(): map<string, LawnmowerSeriesData>
      reads this
    {
      map id | id in seriesMap :: seriesMap[id].data
    }

    /** `getLawnmower`: a new lawnmower sharing the stored series object, or nothing. */
    method GetLawnmower(serialNumber: string, seriesID: string) returns (r: Option<Lawnmower>)
      ensures var found := Lookup(serialNumbers, SeriesData(), serialNumber, seriesID);
        r.Some? <==> found.Some?
      ensures r.Some? ==> fresh(r.value) && r.value.serialNumber == serialNumber && r.value.series == seriesMap[seriesID]
      ensures var found := Lookup(serialNumbers, SeriesData(), serialNumber, seriesID);
        r.Some? ==> var data := found.value.1;
          r.value.Manufacturer() == data.manufacturer && r.value.Model() == data.model &&
          r.value.Weight() == data.weight && r.value.Price() == data.price && r.value.Picture() == data.picture
    {
      if serialNumber !in serialNumbers {
        return None;
      }
      if seriesID !in seriesMap {
        return None;
      }
      var lawnmower := new Lawnmower(serialNumber, seriesMap[seriesID]);
      r := Some(lawnmower);
    }

    /**
     * `setLawnmower`: registers the serial number and replaces the series
     * object of `seriesID` by a new one. A lawnmower handed out before keeps
     * the (constant) series object it was built with, and so the old data.
     */
    method SetLawnmower(serialNumber: string, seriesID: string, model: string, manufacturer: string,
                        weight: real, price: real, picture: string)
      modifies this
      ensures (serialNumbers, SeriesData()) ==
        Register(old(serialNumbers), old(SeriesData()), serialNumber,
                 LawnmowerSeriesData(seriesID, model, manufacturer, weight, price, picture))
      ensures seriesID in seriesMap && fresh(seriesMap[seriesID])
      ensures forall id :: id in old(seriesMap) && id != seriesID ==> id in seriesMap && seriesMap[id] == old(seriesMap)[id]
    {
      serialNumbers := serialNumbers + {serialNumber};
      var series := new FlyweightLawnmowerSeries(LawnmowerSeriesData(seriesID, model, manufacturer, weight, price, picture));
      seriesMap := seriesMap[seriesID := series];
      assert SeriesData() == old(SeriesData())[seriesID := series.data] by {
        assert SeriesData().Keys == old(SeriesData()).Keys + {seriesID};
      }
    }
  }

  /** A lawnmower just registered is found, with the data it was registered with. */
  lemma GetAfterSet(serials: set<string>, series: map<string, LawnmowerSeriesData>,
                    serialNumber: string, data: LawnmowerSeriesData)
    ensures var (s, m) := Register(serials, series, serialNumber, data);
      Lookup(s, m, serialNumber, data.id) == Some((serialNumber, data))
  {
  }

  /**
   * Every lawnmower of its series looked up after a registration reads the
   * new data, and nothing about any other series changes; a serial number
   * once registered stays registered.
   */
  lemma SetAffectsOnlyItsSeries(serials: set<string>, series: map<string, LawnmowerSeriesData>,
                                serialNumber: string, data: LawnmowerSeriesData, otherSerial: string, otherID: string)
    requires otherSerial in serials
    ensures var (s, m) := Register(serials, series, serialNumber, data);
      Lookup(s, m, otherSerial, data.id) == Some((otherSerial, data)) &&
      (otherID != data.id ==> Lookup(s, m, otherSerial, otherID) == Lookup(serials, series, otherSerial, otherID))
  {
  }

  /**
   * A lawnmower handed out before a registration of its series still reads
   * the old data: it no longer shares the series object the store holds.
   */
  method EarlierLawnmowerKeepsItsData(store: LawnmowerStore, l: Lawnmower, serialNumber: string, seriesID: string,
                                      model: string, manufacturer: string, weight: real, price: real, picture: string)
    modifies store
    ensures old(seriesID in store.seriesMap && l.series == store.seriesMap[seriesID]) ==>
      l.series.data == old(store.SeriesData()[seriesID])
    ensures seriesID in store.seriesMap && l.series != store.seriesMap[seriesID]
    ensures store.SeriesData()[seriesID].price == price && store.SeriesData()[seriesID].model == model
  {
    store.SetLawnmower(serialNumber, seriesID, model, manufacturer, weight, price, picture);
  }
}
